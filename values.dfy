/**
 * Value types shared by the whole engine: the values found in the validated
 * object graph, the error record a failing rule produces, an already
 * completed task, and the decimal rendering of integers used in property
 * paths and messages.
 */
module Values {

  datatype Option<+T> = None | Some(value: T)

  /** A property value read from the object graph. */
  datatype Value =
    | Null
    | Str(s: string)
    | Int(i: int)
    | Seq(items: seq<Value>)
    | Obj(fields: map<string, Value>)

  /** Reads the property `name` of an object; anything else reads as Null. */
  function Field(o: Value, name: string): Value
  {
    if o.Obj? && name in o.fields then o.fields[name] else Null
  }

  /** One validation failure, as returned by a rule. */
  datatype ErrorInfo = ErrorInfo(
    propertyName: string,
    displayPropertyName: string,
    code: string,
    message: string)

  /**
   * A task whose result is already available. Rules are awaited one at a
   * time, so awaiting one amounts to reading its result.
   */
  datatype Task<+T> = FromResult(result: T)

  predicate IsDigit(c: char)
  {
    '0' <= c <= '9'
  }

  predicate AllDigits(s: string)
  {
    forall k :: 0 <= k < |s| ==> IsDigit(s[k])
  }

  function DigitChar(d: nat): (c: char)
    requires d < 10
    ensures IsDigit(c) && DigitValue(c) == d
  {
    (('0' as int) + d) as char
  }

  function DigitValue(c: char): nat
    requires IsDigit(c)
  {
    (c as int) - ('0' as int)
  }

  /** The invariant-culture decimal form of a natural number. */
  function NatToString(n: nat): (r: string)
    ensures |r| > 0 && AllDigits(r)
    ensures r[0] == '0' ==> n == 0
    decreases n
  {
    if n < 10 then [DigitChar(n)] else NatToString(n / 10) + [DigitChar(n % 10)]
  }

  /** Reads a string of decimal digits back as a number. */
  function ParseNat(s: string): nat
    requires AllDigits(s)
  {
    if s == [] then 0 else 10 * ParseNat(s[..|s| - 1]) + DigitValue(s[|s| - 1])
  }

  lemma {:induction false} ParseNatToString(n: nat)
    ensures ParseNat(NatToString(n)) == n
    decreases n
  {
    var r := NatToString(n);
    if n >= 10 {
      ParseNatToString(n / 10);
      assert r[..|r| - 1] == NatToString(n / 10);
    }
  }

  /** Different numbers render differently: decimal rendering is injective. */
  lemma NatToStringInjective(a: nat, b: nat)
    ensures NatToString(a) == NatToString(b) ==> a == b
  {
    ParseNatToString(a);
    ParseNatToString(b);
  }

  /** The en-US decimal form of an integer. */
  function IntToString(i: int): (r: string)
    ensures i >= 0 ==> AllDigits(r)
    ensures |r| > 0
    ensures i < 0 ==> r[0] == '-' && AllDigits(r[1..])
    ensures i >= 0 ==> ParseNat(r) == i
    ensures i < 0 ==> ParseNat(r[1..]) == -i
    ensures i >= 0 && r[0] == '0' ==> r == "0"
    ensures i < 0 ==> |r| > 1 && r[1] != '0'
  {
    if i < 0 then
      ParseNatToString(-i);
      assert ("-" + NatToString(-i))[1..] == NatToString(-i);
      "-" + NatToString(-i)
    else
      ParseNatToString(i);
      NatToString(i)
  }

  /**
   * The text a value is rendered as inside a message (`value?.ToString()`);
   * an absent value renders as the empty string. Collections and objects
   * render as their runtime type name, which stands here as a fixed text.
   */
  function ToString(v: Value): string
  {
    match v
    case Null => ""
    case Str(s) => s
    case Int(i) => IntToString(i)
    case Seq(_) => "System.Collections.Generic.List`1"
    case Obj(_) => "System.Object"
  }

  /** A rendered integer holds no brace, so it never forms a placeholder. */
  lemma IntToStringBraceFree(i: int)
    ensures '{' !in IntToString(i) && '}' !in IntToString(i)
  {
    var r := IntToString(i);
    if i < 0 {
      forall k | 0 <= k < |r| ensures r[k] != '{' && r[k] != '}' {
        if k > 0 {
          assert r[k] == r[1..][k - 1];
        }
      }
    }
  }
}
