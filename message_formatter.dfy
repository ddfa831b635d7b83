/**
 * Named-placeholder substitution: `ReplacePlaceholderWithValue` folds an
 * ordinal, non-overlapping, left-to-right `Replace` of `{name}` by the
 * value's text over the given (name, value) pairs, first pair first.
 */
module MessageFormatter {
  import opened Values

  /** `p` occurs somewhere inside `s`. */
  predicate Occurs(p: string, s: string)
  {
    exists i :: 0 <= i <= |s| && p <= s[i..]
  }

  /**
   * Replaces every occurrence of `oldValue` in `s` by `newValue`, scanning
   * left to right and resuming after each replaced occurrence. The text put
   * in by a replacement is not scanned again within the same call.
   */
  function Replace(s: string, oldValue: string, newValue: string): string
    requires |oldValue| > 0
    decreases |s|
  {
    if s == [] then []
    else if oldValue <= s then newValue + Replace(s[|oldValue|..], oldValue, newValue)
    else [s[0]] + Replace(s[1..], oldValue, newValue)
  }

  /**
   * Cuts `s` at the occurrences of `separator` found by the same left-to-right
   * scan; the pieces are the text between them.
   */
  function Split(s: string, separator: string): (parts: seq<string>)
    requires |separator| > 0
    ensures |parts| >= 1 && parts[0] <= s
    decreases |s|
  {
    if s == [] then [""]
    else if separator <= s then [""] + Split(s[|separator|..], separator)
    else
      var rest := Split(s[1..], separator);
      [[s[0]] + rest[0]] + rest[1..]
  }

  /** Glues the pieces back together with `separator` between neighbours. */
  function Join(parts: seq<string>, separator: string): string
  {
    if parts == [] then ""
    else if |parts| == 1 then parts[0]
    else parts[0] + separator + Join(parts[1..], separator)
  }

  lemma JoinPrependToFirst(c: char, parts: seq<string>, separator: string)
    requires |parts| >= 1
    ensures Join([[c] + parts[0]] + parts[1..], separator) == [c] + Join(parts, separator)
  {
    if |parts| > 1 {
      assert ([[c] + parts[0]] + parts[1..])[1..] == parts[1..];
    }
  }

  /** The pieces joined with the separator give back the original text. */
  lemma {:induction false} JoinSplit(s: string, separator: string)
    requires |separator| > 0
    ensures Join(Split(s, separator), separator) == s
    decreases |s|
  {
    if s == [] {
    } else if separator <= s {
      JoinSplit(s[|separator|..], separator);
      assert s == separator + s[|separator|..];
    } else {
      var rest := Split(s[1..], separator);
      JoinSplit(s[1..], separator);
      JoinPrependToFirst(s[0], rest, separator);
      assert s == [s[0]] + s[1..];
    }
  }

  /** No piece contains the separator: every occurrence was cut out. */
  lemma {:induction false} SplitPiecesFree(s: string, separator: string)
    requires |separator| > 0
    ensures forall k :: 0 <= k < |Split(s, separator)| ==> !Occurs(separator, Split(s, separator)[k])
    decreases |s|
  {
    var parts := Split(s, separator);
    if s == [] {
    } else if separator <= s {
      SplitPiecesFree(s[|separator|..], separator);
      assert parts[1..] == Split(s[|separator|..], separator);
    } else {
      var rest := Split(s[1..], separator);
      SplitPiecesFree(s[1..], separator);
      var first := [s[0]] + rest[0];
      forall i | 0 <= i <= |first|
        ensures !(separator <= first[i..])
      {
        if i > 0 {
          assert first[i..] == rest[0][i - 1..];
        }
      }
      assert parts[0] == first;
      assert parts[1..] == rest[1..];
    }
  }

  /** No occurrence of the separator starts inside the first piece: the first cut is the leftmost one. */
  lemma {:induction false} SplitFirstCutLeftmost(s: string, separator: string)
    requires |separator| > 0
    ensures forall k :: 0 <= k < |Split(s, separator)[0]| ==> !(separator <= s[k..])
    decreases |s|
  {
    if s != [] && !(separator <= s) {
      var first := Split(s, separator)[0];
      var rest := Split(s[1..], separator);
      SplitFirstCutLeftmost(s[1..], separator);
      assert first == [s[0]] + rest[0];
      forall k | 0 <= k < |first|
        ensures !(separator <= s[k..])
      {
        if k > 0 {
          assert s[k..] == s[1..][k - 1..];
        } else {
          assert s[k..] == s;
        }
      }
    }
  }

  /** With one piece the text is returned whole; with more, the separator follows the first piece. */
  lemma {:induction false} SplitFirstCutAt(s: string, separator: string)
    requires |separator| > 0
    ensures |Split(s, separator)| == 1 ==> Split(s, separator)[0] == s
    ensures |Split(s, separator)| > 1 ==> separator <= s[|Split(s, separator)[0]|..]
    decreases |s|
  {
    if s != [] && !(separator <= s) {
      var parts := Split(s, separator);
      var rest := Split(s[1..], separator);
      SplitFirstCutAt(s[1..], separator);
      assert parts[0] == [s[0]] + rest[0];
      if |rest| == 1 {
        assert parts[0] == [s[0]] + s[1..] == s;
      } else {
        assert s[|parts[0]|..] == s[1..][|rest[0]|..];
      }
    } else if s != [] {
      assert s[0..] == s;
    }
  }

  /** The pieces after the first are the cut of the text after the first occurrence. */
  lemma {:induction false} SplitAfterFirstCut(s: string, separator: string)
    requires |separator| > 0
    ensures |Split(s, separator)| > 1 ==>
              |Split(s, separator)[0]| + |separator| <= |s|
              && Split(s, separator)[1..] == Split(s[|Split(s, separator)[0]| + |separator|..], separator)
    decreases |s|
  {
    if s != [] && !(separator <= s) {
      var parts := Split(s, separator);
      var rest := Split(s[1..], separator);
      SplitAfterFirstCut(s[1..], separator);
      assert parts[0] == [s[0]] + rest[0];
      assert parts[1..] == rest[1..];
      if |rest| > 1 {
        assert s[|parts[0]| + |separator|..] == s[1..][|rest[0]| + |separator|..];
      }
    }
  }

  /**
   * Replace is Split followed by Join with the replacement: the text is cut
   * at the non-overlapping occurrences and glued back with `newValue`.
   */
  lemma {:induction false} ReplaceIsJoinOfSplit(s: string, oldValue: string, newValue: string)
    requires |oldValue| > 0
    ensures Replace(s, oldValue, newValue) == Join(Split(s, oldValue), newValue)
    decreases |s|
  {
    if s == [] {
    } else if oldValue <= s {
      var rest := Split(s[|oldValue|..], oldValue);
      ReplaceIsJoinOfSplit(s[|oldValue|..], oldValue, newValue);
      assert Split(s, oldValue) == [""] + rest;
      assert ([""] + rest)[1..] == rest;
      assert Join([""] + rest, newValue) == "" + newValue + Join(rest, newValue);
    } else {
      var rest := Split(s[1..], oldValue);
      ReplaceIsJoinOfSplit(s[1..], oldValue, newValue);
      JoinPrependToFirst(s[0], rest, newValue);
      assert Split(s, oldValue) == [[s[0]] + rest[0]] + rest[1..];
    }
  }

  /** Text in which the searched value does not occur is returned unchanged. */
  lemma {:induction false} ReplaceAbsent(s: string, oldValue: string, newValue: string)
    requires |oldValue| > 0 && !Occurs(oldValue, s)
    ensures Replace(s, oldValue, newValue) == s
    decreases |s|
  {
    if s != [] {
      assert s[0..] == s;
      forall i | 0 <= i <= |s[1..]|
        ensures !(oldValue <= s[1..][i..])
      {
        assert s[1..][i..] == s[i + 1..];
      }
      ReplaceAbsent(s[1..], oldValue, newValue);
    }
  }

  /** The placeholder a tuple's name stands for. */
  function Placeholder(name: string): (p: string)
    ensures |p| == |name| + 2 && p[0] == '{' && p[|p| - 1] == '}'
    ensures p[1..|p| - 1] == name
  {
    "{" + name + "}"
  }

  function CreateTuple(key: string, value: Value): (t: (string, Value))
    ensures t.0 == key && t.1 == value
  {
    (key, value)
  }

  /**
   * Applies the tuples in order: each one replaces every occurrence of its
   * placeholder in the text produced so far by the value's text.
   */
  function ReplacePlaceholderWithValue(seed: string, tuples: seq<(string, Value)>): string
    decreases |tuples|
  {
    if tuples == [] then seed
    else
      ReplacePlaceholderWithValue(
        Replace(seed, Placeholder(tuples[0].0), ToString(tuples[0].1)), tuples[1..])
  }

  /** Filling with one tuple is one Replace of its placeholder. */
  lemma FillWithOne(seed: string, name: string, value: Value)
    ensures ReplacePlaceholderWithValue(seed, [(name, value)])
         == Replace(seed, Placeholder(name), ToString(value))
  {
    assert [(name, value)][1..] == [];
  }

  /** Filling with `a + b` is filling with `a`, then with `b`: a left fold. */
  lemma {:induction false} FillAppend(seed: string, a: seq<(string, Value)>, b: seq<(string, Value)>)
    ensures ReplacePlaceholderWithValue(seed, a + b)
         == ReplacePlaceholderWithValue(ReplacePlaceholderWithValue(seed, a), b)
    decreases |a|
  {
    if a != [] {
      var next := Replace(seed, Placeholder(a[0].0), ToString(a[0].1));
      assert (a + b)[0] == a[0];
      assert (a + b)[1..] == a[1..] + b;
      assert ReplacePlaceholderWithValue(seed, a) == ReplacePlaceholderWithValue(next, a[1..]);
      calc {
        ReplacePlaceholderWithValue(seed, a + b);
        ReplacePlaceholderWithValue(next, a[1..] + b);
        { FillAppend(next, a[1..], b); }
        ReplacePlaceholderWithValue(ReplacePlaceholderWithValue(next, a[1..]), b);
      }
    } else {
      assert a + b == b;
    }
  }

  /** One tuple is one Replace, cutting at the placeholder and gluing with the value's text. */
  lemma FillOne(seed: string, name: string, value: Value)
    ensures ReplacePlaceholderWithValue(seed, [(name, value)])
         == Join(Split(seed, Placeholder(name)), ToString(value))
  {
    ReplaceIsJoinOfSplit(seed, Placeholder(name), ToString(value));
  }

  /** A null value deletes its placeholder: the pieces around it are concatenated. */
  lemma FillNullDeletes(seed: string, name: string)
    ensures ReplacePlaceholderWithValue(seed, [(name, Null)])
         == Join(Split(seed, Placeholder(name)), "")
  {
    FillOne(seed, name, Null);
  }

  /** Tuples whose placeholders do not occur in the text leave it unchanged. */
  lemma {:induction false} FillAbsent(seed: string, tuples: seq<(string, Value)>)
    requires forall k :: 0 <= k < |tuples| ==> !Occurs(Placeholder(tuples[k].0), seed)
    ensures ReplacePlaceholderWithValue(seed, tuples) == seed
    decreases |tuples|
  {
    if tuples != [] {
      ReplaceAbsent(seed, Placeholder(tuples[0].0), ToString(tuples[0].1));
      FillAbsent(seed, tuples[1..]);
    }
  }

  /** `p` does not start anywhere inside `x`: no character of `x` is its first one. */
  predicate CannotStartIn(p: string, x: string)
    requires |p| > 0
  {
    forall k :: 0 <= k < |x| ==> x[k] != p[0]
  }

  /** A prefix in which no occurrence can start is copied unchanged. */
  lemma {:induction false} ReplaceSkipsPrefix(x: string, t: string, oldValue: string, newValue: string)
    requires |oldValue| > 0 && CannotStartIn(oldValue, x)
    ensures Replace(x + t, oldValue, newValue) == x + Replace(t, oldValue, newValue)
    decreases |x|
  {
    if x != [] {
      var s := x + t;
      assert s[0] == x[0] != oldValue[0];
      assert s[1..] == x[1..] + t;
      calc {
        Replace(s, oldValue, newValue);
        [s[0]] + Replace(s[1..], oldValue, newValue);
        { ReplaceSkipsPrefix(x[1..], t, oldValue, newValue); }
        [x[0]] + (x[1..] + Replace(t, oldValue, newValue));
        { assert x == [x[0]] + x[1..]; }
        x + Replace(t, oldValue, newValue);
      }
    } else {
      assert x + t == t;
    }
  }

  /** An occurrence at the start is replaced and scanning resumes after it. */
  lemma ReplaceAtStart(t: string, oldValue: string, newValue: string)
    requires |oldValue| > 0
    ensures Replace(oldValue + t, oldValue, newValue) == newValue + Replace(t, oldValue, newValue)
  {
    assert oldValue <= oldValue + t;
    assert (oldValue + t)[|oldValue|..] == t;
  }

  /** The name of a placeholder holds no braces. */
  predicate BraceFree(s: string)
  {
    forall k :: 0 <= k < |s| ==> s[k] != '{' && s[k] != '}'
  }

  /** A placeholder is never the start of a different placeholder. */
  lemma PlaceholderNotPrefix(name: string, other: string, t: string)
    requires BraceFree(name) && BraceFree(other) && name != other
    ensures !(Placeholder(name) <= Placeholder(other) + t)
  {
    var p, s := Placeholder(name), Placeholder(other) + t;
    assert p[|name| + 1] == '}' && s[|other| + 1] == '}';
    assert forall k :: 0 <= k < |name| ==> p[k + 1] == name[k];
    assert forall k :: 0 <= k < |other| ==> s[k + 1] == other[k];
  }

  /** Replacing one placeholder leaves a different placeholder alone. */
  lemma ReplaceSkipsOtherPlaceholder(other: string, t: string, name: string, newValue: string)
    requires BraceFree(name) && BraceFree(other) && name != other
    ensures Replace(Placeholder(other) + t, Placeholder(name), newValue)
         == Placeholder(other) + Replace(t, Placeholder(name), newValue)
  {
    var p, q := Placeholder(name), Placeholder(other);
    var s := q + t;
    PlaceholderNotPrefix(name, other, t);
    assert s[1..] == (other + "}") + t;
    assert q == [s[0]] + (other + "}");
    calc {
      Replace(s, p, newValue);
      [s[0]] + Replace(s[1..], p, newValue);
      { ReplaceSkipsPrefix(other + "}", t, p, newValue); }
      [s[0]] + ((other + "}") + Replace(t, p, newValue));
      q + Replace(t, p, newValue);
    }
  }

  /** Text in which no occurrence can start is returned unchanged. */
  lemma ReplaceNoStart(x: string, oldValue: string, newValue: string)
    requires |oldValue| > 0 && CannotStartIn(oldValue, x)
    ensures Replace(x, oldValue, newValue) == x
  {
    ReplaceSkipsPrefix(x, [], oldValue, newValue);
    assert x + [] == x;
  }

  /** A placeholder after text in which it cannot start is replaced, and scanning goes on after it. */
  lemma ReplaceAfter(before: string, name: string, after: string, newValue: string)
    requires CannotStartIn(Placeholder(name), before)
    ensures Replace(before + Placeholder(name) + after, Placeholder(name), newValue)
         == before + newValue + Replace(after, Placeholder(name), newValue)
  {
    var p := Placeholder(name);
    assert before + p + after == before + (p + after);
    ReplaceSkipsPrefix(before, p + after, p, newValue);
    ReplaceAtStart(after, p, newValue);
  }

  /** A placeholder between text that holds no `{` renders as the value's text. */
  lemma FillSingle(before: string, name: string, after: string, value: Value)
    requires CannotStartIn(Placeholder(name), before) && CannotStartIn(Placeholder(name), after)
    ensures ReplacePlaceholderWithValue(before + Placeholder(name) + after, [(name, value)])
         == before + ToString(value) + after
  {
    ReplaceAfter(before, name, after, ToString(value));
    ReplaceNoStart(after, Placeholder(name), ToString(value));
  }

  /**
   * A later tuple also scans the text an earlier tuple inserted: a value
   * that itself looks like a later placeholder gets substituted too.
   */
  lemma FillRescansInsertedText()
    ensures ReplacePlaceholderWithValue("{Subject}",
              [CreateTuple("Subject", Str("{Body}")), CreateTuple("Body", Str("x"))])
         == "x"
  {
    var tuples := [CreateTuple("Subject", Str("{Body}")), CreateTuple("Body", Str("x"))];
    assert tuples[1..] == [("Body", Str("x"))];
    FillSingle([], "Subject", [], Str("{Body}"));
    assert [] + Placeholder("Subject") + [] == "{Subject}";
    FillSingle([], "Body", [], Str("x"));
    assert [] + Placeholder("Body") + [] == "{Body}";
  }

  /** A message template read as literal texts and named placeholders. */
  datatype Piece = Text(s: string) | Hole(name: string)

  function PieceText(piece: Piece): string
  {
    match piece
    case Text(s) => s
    case Hole(name) => Placeholder(name)
  }

  function Assemble(pieces: seq<Piece>): string
  {
    if pieces == [] then "" else PieceText(pieces[0]) + Assemble(pieces[1..])
  }

  lemma {:induction false} AssembleAppend(a: seq<Piece>, b: seq<Piece>)
    ensures Assemble(a + b) == Assemble(a) + Assemble(b)
  {
    if a == [] {
      assert a + b == b;
    } else {
      calc {
        Assemble(a + b);
        PieceText((a + b)[0]) + Assemble((a + b)[1..]);
        { assert (a + b)[0] == a[0]; assert (a + b)[1..] == a[1..] + b; }
        PieceText(a[0]) + Assemble(a[1..] + b);
        { AssembleAppend(a[1..], b); }
        PieceText(a[0]) + (Assemble(a[1..]) + Assemble(b));
        Assemble(a) + Assemble(b);
      }
    }
  }

  lemma AssembleThree(p: Piece, q: Piece, r: Piece)
    ensures Assemble([p, q, r]) == PieceText(p) + PieceText(q) + PieceText(r)
  {
    assert [p, q, r][1..] == [q, r];
    assert [q, r][1..] == [r];
    assert [r][1..] == [];
    assert Assemble([r]) == PieceText(r) + "" == PieceText(r);
  }

  /** No literal text holds a `{` and no placeholder name holds a brace. */
  predicate WellFormed(pieces: seq<Piece>)
  {
    forall k :: 0 <= k < |pieces| ==>
      match pieces[k]
      case Text(s) => '{' !in s
      case Hole(name) => BraceFree(name)
  }

  /** Turns every hole named `name` into the literal text `newValue`. */
  function Subst(pieces: seq<Piece>, name: string, newValue: string): (r: seq<Piece>)
    ensures |r| == |pieces|
  {
    seq(|pieces|, k requires 0 <= k < |pieces| => SubstPiece(pieces[k], name, newValue))
  }

  /** One piece of Subst: a hole of that name becomes the text, anything else stays. */
  function SubstPiece(piece: Piece, name: string, newValue: string): Piece
  {
    if piece == Hole(name) then Text(newValue) else piece
  }

  function SubstAll(pieces: seq<Piece>, tuples: seq<(string, Value)>): seq<Piece>
    decreases |tuples|
  {
    if tuples == [] then pieces
    else SubstAll(Subst(pieces, tuples[0].0, ToString(tuples[0].1)), tuples[1..])
  }

  lemma SubstWellFormed(pieces: seq<Piece>, name: string, newValue: string)
    requires WellFormed(pieces) && '{' !in newValue
    ensures WellFormed(Subst(pieces, name, newValue))
  {
  }

  /**
   * In a well-formed template, one Replace of a placeholder turns exactly
   * the holes of that name into the replacement text.
   */
  lemma {:induction false} ReplaceAssembled(pieces: seq<Piece>, name: string, newValue: string)
    requires WellFormed(pieces) && BraceFree(name)
    ensures Replace(Assemble(pieces), Placeholder(name), newValue)
         == Assemble(Subst(pieces, name, newValue))
  {
    if pieces == [] {
    } else {
      var p := Placeholder(name);
      var rest := Assemble(pieces[1..]);
      assert WellFormed(pieces[1..]) by {
        assert forall k :: 0 <= k < |pieces[1..]| ==> pieces[1..][k] == pieces[k + 1];
      }
      ReplaceAssembled(pieces[1..], name, newValue);
      var sub := Subst(pieces, name, newValue);
      assert sub[1..] == Subst(pieces[1..], name, newValue);
      assert pieces[0] == pieces[..][0];
      match pieces[0]
      case Text(s) =>
        assert CannotStartIn(p, s);
        ReplaceSkipsPrefix(s, rest, p, newValue);
      case Hole(other) =>
        if other == name {
          ReplaceAtStart(rest, p, newValue);
        } else {
          ReplaceSkipsOtherPlaceholder(other, rest, name, newValue);
        }
    }
  }

  /**
   * Filling a well-formed template with values whose text holds no `{` is
   * substituting its holes, tuple by tuple.
   */
  lemma {:induction false} FillAssembled(pieces: seq<Piece>, tuples: seq<(string, Value)>)
    requires WellFormed(pieces)
    requires forall k :: 0 <= k < |tuples| ==> BraceFree(tuples[k].0) && '{' !in ToString(tuples[k].1)
    ensures ReplacePlaceholderWithValue(Assemble(pieces), tuples) == Assemble(SubstAll(pieces, tuples))
    ensures WellFormed(SubstAll(pieces, tuples))
    decreases |tuples|
  {
    if tuples != [] {
      var (name, value) := tuples[0];
      ReplaceAssembled(pieces, name, ToString(value));
      SubstWellFormed(pieces, name, ToString(value));
      FillAssembled(Subst(pieces, name, ToString(value)), tuples[1..]);
    }
  }

  lemma AssembleTwo(p: Piece, q: Piece)
    ensures Assemble([p, q]) == PieceText(p) + PieceText(q)
  {
    assert [p, q][1..] == [q];
    assert [q][1..] == [];
    assert Assemble([q]) == PieceText(q) + "" == PieceText(q);
  }

  lemma AssembleFive(p1: Piece, p2: Piece, p3: Piece, p4: Piece, p5: Piece)
    ensures Assemble([p1, p2, p3, p4, p5])
         == PieceText(p1) + PieceText(p2) + PieceText(p3) + PieceText(p4) + PieceText(p5)
  {
    assert [p1, p2, p3, p4, p5] == [p1, p2, p3] + [p4, p5];
    AssembleAppend([p1, p2, p3], [p4, p5]);
    AssembleThree(p1, p2, p3);
    AssembleTwo(p4, p5);
  }

  lemma SubstFive(p1: Piece, p2: Piece, p3: Piece, p4: Piece, p5: Piece, name: string, v: string)
    ensures Subst([p1, p2, p3, p4, p5], name, v)
         == [SubstPiece(p1, name, v), SubstPiece(p2, name, v), SubstPiece(p3, name, v),
             SubstPiece(p4, name, v), SubstPiece(p5, name, v)]
  {
  }

  /**
   * Two rounds of Replace on `<t1>{n1}<t2>{n2}<t3>` put the two values in
   * the two holes, provided the first value opens no placeholder of its own.
   */
  lemma ReplaceTwoHoles(t1: string, n1: string, t2: string, n2: string, t3: string,
                        v1: string, v2: string)
    requires '{' !in t1 && '{' !in t2 && '{' !in t3 && '{' !in v1
    requires BraceFree(n1) && BraceFree(n2) && n1 != n2
    ensures Replace(Replace(Assemble([Text(t1), Hole(n1), Text(t2), Hole(n2), Text(t3)]), Placeholder(n1), v1),
                    Placeholder(n2), v2)
         == t1 + v1 + t2 + v2 + t3
  {
    var pieces := [Text(t1), Hole(n1), Text(t2), Hole(n2), Text(t3)];
    ReplaceAssembled(pieces, n1, v1);
    SubstFive(Text(t1), Hole(n1), Text(t2), Hole(n2), Text(t3), n1, v1);
    var named := [Text(t1), Text(v1), Text(t2), Hole(n2), Text(t3)];
    assert Subst(pieces, n1, v1) == named;
    assert WellFormed(named);
    ReplaceAssembled(named, n2, v2);
    SubstFive(Text(t1), Text(v1), Text(t2), Hole(n2), Text(t3), n2, v2);
    assert Subst(named, n2, v2) == [Text(t1), Text(v1), Text(t2), Text(v2), Text(t3)];
    AssembleFive(Text(t1), Text(v1), Text(t2), Text(v2), Text(t3));
  }

  /**
   * Filling `<t1>{n1}<t2>{n2}<t3>` with one tuple per name puts each value
   * in its own hole, when the first value opens no placeholder.
   */
  lemma FillTwoHoles(t1: string, n1: string, t2: string, n2: string, t3: string, v1: Value, v2: Value)
    requires '{' !in t1 && '{' !in t2 && '{' !in t3 && '{' !in ToString(v1)
    requires BraceFree(n1) && BraceFree(n2) && n1 != n2
    ensures ReplacePlaceholderWithValue(Assemble([Text(t1), Hole(n1), Text(t2), Hole(n2), Text(t3)]),
                                        [CreateTuple(n1, v1), CreateTuple(n2, v2)])
         == t1 + ToString(v1) + t2 + ToString(v2) + t3
  {
    var tuples := [CreateTuple(n1, v1), CreateTuple(n2, v2)];
    var seed := Assemble([Text(t1), Hole(n1), Text(t2), Hole(n2), Text(t3)]);
    var once := Replace(seed, Placeholder(n1), ToString(v1));
    var twice := Replace(once, Placeholder(n2), ToString(v2));
    assert tuples[1..] == [(n2, v2)] && tuples[1..][1..] == [];
    calc {
      ReplacePlaceholderWithValue(seed, tuples);
      ReplacePlaceholderWithValue(once, tuples[1..]);
      ReplacePlaceholderWithValue(twice, tuples[1..][1..]);
      twice;
    }
    ReplaceTwoHoles(t1, n1, t2, n2, t3, ToString(v1), ToString(v2));
  }

  /**
   * A first value that reads as the second placeholder is replaced in the
   * second round: inserted text is scanned again.
   */
  lemma ReplaceInsertedPlaceholder(t1: string, n1: string, t2: string, n2: string, t3: string, v2: string)
    requires '{' !in t1 && '{' !in t2 && '{' !in t3
    requires BraceFree(n1) && BraceFree(n2) && n1 != n2
    ensures Replace(Replace(Assemble([Text(t1), Hole(n1), Text(t2), Hole(n2), Text(t3)]), Placeholder(n1), Placeholder(n2)),
                    Placeholder(n2), v2)
         == t1 + v2 + t2 + v2 + t3
  {
    var pieces := [Text(t1), Hole(n1), Text(t2), Hole(n2), Text(t3)];
    ReplaceAssembled(pieces, n1, Placeholder(n2));
    SubstFive(Text(t1), Hole(n1), Text(t2), Hole(n2), Text(t3), n1, Placeholder(n2));
    var named := [Text(t1), Text(Placeholder(n2)), Text(t2), Hole(n2), Text(t3)];
    assert Subst(pieces, n1, Placeholder(n2)) == named;
    var same := [Text(t1), Hole(n2), Text(t2), Hole(n2), Text(t3)];
    AssembleFive(Text(t1), Text(Placeholder(n2)), Text(t2), Hole(n2), Text(t3));
    AssembleFive(Text(t1), Hole(n2), Text(t2), Hole(n2), Text(t3));
    assert Assemble(named) == Assemble(same);
    assert WellFormed(same);
    ReplaceAssembled(same, n2, v2);
    SubstFive(Text(t1), Hole(n2), Text(t2), Hole(n2), Text(t3), n2, v2);
    assert Subst(same, n2, v2) == [Text(t1), Text(v2), Text(t2), Text(v2), Text(t3)];
    AssembleFive(Text(t1), Text(v2), Text(t2), Text(v2), Text(t3));
  }

  /** The texts of nine literal pieces, in order. */
  lemma AssembleNine(a: string, b: string, c: string, d: string, e: string, f: string, g: string, h: string, k: string)
    ensures Assemble([Text(a), Text(b), Text(c), Text(d), Text(e), Text(f), Text(g), Text(h), Text(k)])
         == a + b + c + d + e + f + g + h + k
  {
    assert [Text(a), Text(b), Text(c), Text(d), Text(e), Text(f), Text(g), Text(h), Text(k)]
        == [Text(a), Text(b), Text(c)] + ([Text(d), Text(e), Text(f)] + [Text(g), Text(h), Text(k)]);
    AssembleAppend([Text(a), Text(b), Text(c)], [Text(d), Text(e), Text(f)] + [Text(g), Text(h), Text(k)]);
    AssembleAppend([Text(d), Text(e), Text(f)], [Text(g), Text(h), Text(k)]);
    AssembleThree(Text(a), Text(b), Text(c));
    AssembleThree(Text(d), Text(e), Text(f));
    AssembleThree(Text(g), Text(h), Text(k));
  }

  /** The substitutions of FillFourHoles, piece by piece. */
  lemma SubstFourHoles(t1: string, n0: string, t2: string, n1: string, t3: string,
                       n2: string, t4: string, n3: string, t5: string,
                       v0: string, x: Value, y: Value, z: Value)
    requires n0 != n1 && n0 != n2 && n0 != n3 && n1 != n2 && n1 != n3 && n2 != n3
    ensures SubstAll(Subst([Text(t1), Hole(n0), Text(t2), Hole(n1), Text(t3), Hole(n2), Text(t4), Hole(n3), Text(t5)], n0, v0),
                     [(n2, y), (n1, x), (n3, z)])
         == [Text(t1), Text(v0), Text(t2), Text(ToString(x)), Text(t3), Text(ToString(y)), Text(t4), Text(ToString(z)), Text(t5)]
  {
    var named := Subst([Text(t1), Hole(n0), Text(t2), Hole(n1), Text(t3), Hole(n2), Text(t4), Hole(n3), Text(t5)], n0, v0);
    assert named == [Text(t1), Text(v0), Text(t2), Hole(n1), Text(t3), Hole(n2), Text(t4), Hole(n3), Text(t5)];
    var s1 := Subst(named, n2, ToString(y));
    assert s1 == [Text(t1), Text(v0), Text(t2), Hole(n1), Text(t3), Text(ToString(y)), Text(t4), Hole(n3), Text(t5)];
    var s2 := Subst(s1, n1, ToString(x));
    assert s2 == [Text(t1), Text(v0), Text(t2), Text(ToString(x)), Text(t3), Text(ToString(y)), Text(t4), Hole(n3), Text(t5)];
    var s3 := Subst(s2, n3, ToString(z));
    assert [(n2, y), (n1, x), (n3, z)][1..] == [(n1, x), (n3, z)];
    assert [(n1, x), (n3, z)][1..] == [(n3, z)];
    assert [(n3, z)][1..] == [];
    assert SubstAll(named, [(n2, y), (n1, x), (n3, z)]) == SubstAll(s1, [(n1, x), (n3, z)]);
    assert SubstAll(s1, [(n1, x), (n3, z)]) == SubstAll(s2, [(n3, z)]);
    assert SubstAll(s2, [(n3, z)]) == s3;
  }

  /**
   * A template with four holes, the first filled by one Replace and the
   * other three by one fill whose tuples name the second hole first, then
   * the first, then the third: every value lands in its own hole, provided
   * no value inserted before a later round opens a placeholder.
   */
  lemma {:induction false} FillFourHoles(t1: string, n0: string, t2: string, n1: string, t3: string,
                                         n2: string, t4: string, n3: string, t5: string,
                                         v0: string, x: Value, y: Value, z: Value)
    requires '{' !in t1 && '{' !in t2 && '{' !in t3 && '{' !in t4 && '{' !in t5 && '{' !in v0
    requires '{' !in ToString(x) && '{' !in ToString(y) && '{' !in ToString(z)
    requires BraceFree(n0) && BraceFree(n1) && BraceFree(n2) && BraceFree(n3)
    requires n0 != n1 && n0 != n2 && n0 != n3 && n1 != n2 && n1 != n3 && n2 != n3
    ensures ReplacePlaceholderWithValue(
              Replace(Assemble([Text(t1), Hole(n0), Text(t2), Hole(n1), Text(t3), Hole(n2), Text(t4), Hole(n3), Text(t5)]),
                      Placeholder(n0), v0),
              [(n2, y), (n1, x), (n3, z)])
         == t1 + v0 + t2 + ToString(x) + t3 + ToString(y) + t4 + ToString(z) + t5
  {
    var pieces := [Text(t1), Hole(n0), Text(t2), Hole(n1), Text(t3), Hole(n2), Text(t4), Hole(n3), Text(t5)];
    ReplaceAssembled(pieces, n0, v0);
    SubstWellFormed(pieces, n0, v0);
    FillAssembled(Subst(pieces, n0, v0), [(n2, y), (n1, x), (n3, z)]);
    SubstFourHoles(t1, n0, t2, n1, t3, n2, t4, n3, t5, v0, x, y, z);
    AssembleNine(t1, v0, t2, ToString(x), t3, ToString(y), t4, ToString(z), t5);
  }

  /** A text without `{` holds no placeholder. */
  lemma NoBraceNoPlaceholder(s: string, name: string)
    requires '{' !in s
    ensures !Occurs(Placeholder(name), s)
  {
    forall i | 0 <= i <= |s| ensures !(Placeholder(name) <= s[i..]) {
      if i < |s| {
        assert s[i..][0] == s[i];
      }
    }
  }
}
