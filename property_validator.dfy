/**
 * The binding layer: a property validator ties one property of a
 * validator's object to the shared command. It derives the property's path
 * and display name, builds nested validators for an object-valued or
 * collection-valued property, registers rules on the shared command, and
 * assembles the error record a failing rule returns.
 */
module Properties {
  import opened Values
  import opened MessageFormatter
  import opened Commands
  import opened Validators

  /**
   * A message provider: its identity, which becomes the error code, and the
   * template text it yields in the current culture.
   */
  datatype MessageTemplate = MessageTemplate(code: string, text: string)

  /** The en-US default templates of the built-in rules, as literal texts and holes. */
  const NotEmptyPieces: seq<Piece> := [Text("'"), Hole("PropertyName"), Text("' should not be empty.")]
  const NotNullPieces: seq<Piece> := [Text("'"), Hole("PropertyName"), Text("' must not be empty.")]
  const NotEqualPieces: seq<Piece> :=
    [Text("'"), Hole("PropertyName"), Text("' should not be equal to '"), Hole("ComparisonValue"), Text("'.")]
  const LengthPieces: seq<Piece> :=
    [Text("'"), Hole("PropertyName"), Text("' must be between "), Hole("MinLength"), Text(" and "),
     Hole("MaxLength"), Text(" characters. You entered "), Hole("TotalLength"), Text(" characters.")]

  const NotEmptyMessage := MessageTemplate("notempty_error", Assemble(NotEmptyPieces))
  const NotNullMessage := MessageTemplate("notnull_error", Assemble(NotNullPieces))
  const NotEqualMessage := MessageTemplate("notequal_error", Assemble(NotEqualPieces))
  const LengthMessage := MessageTemplate("length_error", Assemble(LengthPieces))

  /**
   * A property of the validator's object: `func` reads it, the short name
   * and the default of the property's type are given explicitly, and the
   * display name may be overridden.
   */
  datatype PropertyValidator = PropertyValidator(
    validator: Validator,
    func: Value -> Value,
    shortPropertyName: string,
    typeDefault: Value,
    displayName: Option<string>)
  {
    function Object(): Value
    {
      validator.obj
    }

    /** The property's current value, read from the object. */
    function Value(): Value
    {
      func(Object())
    }

    function DisplayName(): string
    {
      if displayName.Some? then displayName.value else shortPropertyName
    }

    function PropertyName(): string
    {
      validator.propertyPrefix + shortPropertyName
    }

    function Command(): ValidationCommand
    {
      validator.command
    }
  }

  /** Binds a property of the validator's object; registers nothing. */
  function For(v: Validator, func: Value -> Value, shortPropertyName: string, typeDefault: Value,
               displayName: Option<string>): PropertyValidator
  {
    PropertyValidator(v, func, shortPropertyName, typeDefault, displayName)
  }

  /**
   * A new binding reads the validator's object and shares its command; its
   * path is the validator's prefix followed by the short name, and it shows
   * the override as display name when one is given, else the short name.
   */
  lemma ForBinding(v: Validator, func: Value -> Value, shortPropertyName: string, typeDefault: Value,
                   displayName: Option<string>)
    ensures var b := For(v, func, shortPropertyName, typeDefault, displayName);
            b.Object() == v.obj && b.Value() == func(v.obj) && b.Command() == v.command
            && b.PropertyName() == v.propertyPrefix + shortPropertyName
            && (displayName.Some? ==> b.DisplayName() == displayName.value)
            && (displayName.None? ==> b.DisplayName() == shortPropertyName)
  {
  }

  /** The validator of an object-valued property: same command, prefix `<path>.`. */
  function NestedValidator(b: PropertyValidator): Validator
  {
    Validator(b.Value(), b.Command(), b.PropertyName() + ".")
  }

  function ElementPrefix(path: string, i: nat): string
  {
    path + "[" + NatToString(i) + "]."
  }

  /**
   * The validators of the elements of a collection-valued property: none
   * for an absent collection, else one per element, element i under the
   * prefix `<path>[i].`.
   */
  function NestedValidators(b: PropertyValidator): (vs: seq<Validator>)
    requires b.Value().Null? || b.Value().Seq?
    ensures b.Value().Null? ==> vs == []
    ensures b.Value().Seq? ==> |vs| == |b.Value().items|
    ensures forall i :: 0 <= i < |vs| ==>
              vs[i].obj == b.Value().items[i] && vs[i].command == b.Command()
              && vs[i].propertyPrefix == ElementPrefix(b.PropertyName(), i)
  {
    match b.Value()
    case Null => []
    case Seq(items) => seq(|items|, i requires 0 <= i < |items| => Validator(items[i], b.Command(), ElementPrefix(b.PropertyName(), i)))
  }

  /** Char.IsWhiteSpace: the Unicode space, line and paragraph separators and the control characters U+0009-U+000D, U+0085. */
  predicate IsWhiteSpace(c: char)
  {
    ('\t' <= c <= '\r') || c == ' ' || c == '\U{0085}' || c == '\U{00A0}' || c == '\U{1680}'
    || ('\U{2000}' <= c <= '\U{200A}') || c == '\U{2028}' || c == '\U{2029}' || c == '\U{202F}'
    || c == '\U{205F}' || c == '\U{3000}'
  }

  /** The length a Length rule measures: the text's length, 0 when absent. */
  function LengthOf(v: Value): nat
  {
    if v.Str? then |v.s| else 0
  }

  /** The custom template when one is given, else the rule's default. */
  function Message(custom: Option<MessageTemplate>, default: MessageTemplate): (m: MessageTemplate)
    ensures custom.Some? ==> m == custom.value
    ensures custom.None? ==> m == default
  {
    if custom.Some? then custom.value else default
  }

  /**
   * The error record of a failing rule: its path, its display name, the
   * template's identity as code, and the template with `{PropertyName}`
   * filled by the display name, then passed through the converter.
   */
  function CreateErrorInfo(b: PropertyValidator, message: MessageTemplate,
                           converter: Option<string -> string>): (e: ErrorInfo)
    ensures e.propertyName == b.PropertyName()
    ensures e.displayPropertyName == b.DisplayName()
    ensures e.code == message.code
  {
    var text := ReplacePlaceholderWithValue(message.text, [CreateTuple("PropertyName", Str(b.DisplayName()))]);
    ErrorInfo(b.PropertyName(), b.DisplayName(), message.code,
              if converter.Some? then converter.value(text) else text)
  }

  /** The converter of NotEqual: fills `{ComparisonValue}`. */
  function ComparisonConverter(comparisonValue: Value): string -> string
  {
    text => ReplacePlaceholderWithValue(text, [CreateTuple("ComparisonValue", comparisonValue)])
  }

  /** The converter of Length: fills `{MaxLength}`, `{MinLength}`, `{TotalLength}` in that order. */
  function LengthConverter(minLength: int, maxLength: int, length: nat): string -> string
  {
    text => ReplacePlaceholderWithValue(text, [
      CreateTuple("MaxLength", Int(maxLength)),
      CreateTuple("MinLength", Int(minLength)),
      CreateTuple("TotalLength", Int(length))])
  }

  /**
   * The NotEmpty rule: it fails on a whitespace-only text, on an empty
   * collection, and on any other value equal to its type's default.
   */
  function NotEmptyCheck(b: PropertyValidator, message: Option<MessageTemplate>): (r: Option<ErrorInfo>)
    ensures r.Some? <==>
      match b.Value()
      case Str(s) => forall k :: 0 <= k < |s| ==> IsWhiteSpace(s[k])
      case Seq(items) => items == []
      case _ => b.Value() == b.typeDefault
    ensures r.Some? ==> r.value.propertyName == b.PropertyName()
    ensures r.Some? ==> r.value.code == (if message.Some? then message.value.code else "notempty_error")
  {
    var value := b.Value();
    var fails :=
      if value.Str? then forall k :: 0 <= k < |value.s| ==> IsWhiteSpace(value.s[k])
      else if value.Seq? then value.items == []
      else value == b.typeDefault;
    if fails then Some(CreateErrorInfo(b, Message(message, NotEmptyMessage), None)) else None
  }

  /** The NotNull rule: it fails exactly on an absent value. */
  function NotNullCheck(b: PropertyValidator, message: Option<MessageTemplate>): (r: Option<ErrorInfo>)
    ensures r.Some? <==> b.Value().Null?
    ensures r.Some? ==> r.value.propertyName == b.PropertyName()
    ensures r.Some? ==> r.value.code == (if message.Some? then message.value.code else "notnull_error")
  {
    if b.Value() == Null then Some(CreateErrorInfo(b, Message(message, NotNullMessage), None)) else None
  }

  /** The NotEqual rule: it fails exactly when the value equals the comparison value. */
  function NotEqualCheck(b: PropertyValidator, comparisonValue: Value, message: Option<MessageTemplate>): (r: Option<ErrorInfo>)
    ensures r.Some? <==> b.Value() == comparisonValue
    ensures r.Some? ==> r.value.propertyName == b.PropertyName()
    ensures r.Some? ==> r.value.code == (if message.Some? then message.value.code else "notequal_error")
  {
    if b.Value() == comparisonValue
    then Some(CreateErrorInfo(b, Message(message, NotEqualMessage), Some(ComparisonConverter(comparisonValue))))
    else None
  }

  /** The Length rule: it fails exactly when the length is outside [minLength, maxLength]. */
  function LengthCheck(b: PropertyValidator, minLength: int, maxLength: int, message: Option<MessageTemplate>): (r: Option<ErrorInfo>)
    ensures r.Some? <==> LengthOf(b.Value()) < minLength || LengthOf(b.Value()) > maxLength
    ensures r.Some? ==> r.value.propertyName == b.PropertyName()
    ensures r.Some? ==> r.value.code == (if message.Some? then message.value.code else "length_error")
  {
    var length := LengthOf(b.Value());
    if length < minLength || length > maxLength
    then Some(CreateErrorInfo(b, Message(message, LengthMessage), Some(LengthConverter(minLength, maxLength, length))))
    else None
  }

  /**
   * Registers a rule on the shared command under this property's path; the
   * rule is not run. Returns the same binding for chaining.
   */
  method AddAsync(b: PropertyValidator, func: PropertyValidator -> Task<Option<ErrorInfo>>) returns (r: PropertyValidator)
    modifies b.Command()
    ensures r == b
    ensures Appended(old(b.Command().items), b.Command().items, b.PropertyName(), func(b).result)
  {
    b.Command().AddAsync(b.PropertyName(), () => func(b));
    r := b;
  }

  /** Registers a synchronous rule, as AddAsync does with an already completed task. */
  method Add(b: PropertyValidator, func: PropertyValidator -> Option<ErrorInfo>) returns (r: PropertyValidator)
    modifies b.Command()
    ensures r == b
    ensures Appended(old(b.Command().items), b.Command().items, b.PropertyName(), func(b))
  {
    b.Command().Add(b.PropertyName(), () => func(b));
    r := b;
  }

  method NotEmpty(b: PropertyValidator, message: Option<MessageTemplate>) returns (r: PropertyValidator)
    modifies b.Command()
    ensures r == b
    ensures Appended(old(b.Command().items), b.Command().items, b.PropertyName(), NotEmptyCheck(b, message))
    ensures KeyedByPath(old(b.Command().items)) ==> KeyedByPath(b.Command().items)
  {
    ghost var before := b.Command().items;
    r := Add(b, v => NotEmptyCheck(v, message));
    if KeyedByPath(before) {
      KeyedByPathAppended(before, b.Command().items, b.PropertyName(), NotEmptyCheck(b, message));
    }
  }

  method NotNull(b: PropertyValidator, message: Option<MessageTemplate>) returns (r: PropertyValidator)
    modifies b.Command()
    ensures r == b
    ensures Appended(old(b.Command().items), b.Command().items, b.PropertyName(), NotNullCheck(b, message))
    ensures KeyedByPath(old(b.Command().items)) ==> KeyedByPath(b.Command().items)
  {
    ghost var before := b.Command().items;
    r := Add(b, v => NotNullCheck(v, message));
    if KeyedByPath(before) {
      KeyedByPathAppended(before, b.Command().items, b.PropertyName(), NotNullCheck(b, message));
    }
  }

  method NotEqual(b: PropertyValidator, comparisonValue: Value, message: Option<MessageTemplate>) returns (r: PropertyValidator)
    modifies b.Command()
    ensures r == b
    ensures Appended(old(b.Command().items), b.Command().items, b.PropertyName(),
                     NotEqualCheck(b, comparisonValue, message))
    ensures KeyedByPath(old(b.Command().items)) ==> KeyedByPath(b.Command().items)
  {
    ghost var before := b.Command().items;
    r := Add(b, v => NotEqualCheck(v, comparisonValue, message));
    if KeyedByPath(before) {
      KeyedByPathAppended(before, b.Command().items, b.PropertyName(), NotEqualCheck(b, comparisonValue, message));
    }
  }

  method Length(b: PropertyValidator, minLength: int, maxLength: int, message: Option<MessageTemplate>)
    returns (r: PropertyValidator)
    modifies b.Command()
    ensures r == b
    ensures Appended(old(b.Command().items), b.Command().items, b.PropertyName(),
                     LengthCheck(b, minLength, maxLength, message))
    ensures KeyedByPath(old(b.Command().items)) ==> KeyedByPath(b.Command().items)
  {
    ghost var before := b.Command().items;
    r := Add(b, v => LengthCheck(v, minLength, maxLength, message));
    if KeyedByPath(before) {
      KeyedByPathAppended(before, b.Command().items, b.PropertyName(), LengthCheck(b, minLength, maxLength, message));
    }
  }

  /**
   * A property bound through a nested validator is reported under the
   * parent's path, a dot and its short name, and its rules go to the
   * parent's command.
   */
  lemma NestedPropertyName(b: PropertyValidator, func: Value -> Value, shortPropertyName: string,
                           typeDefault: Value, displayName: Option<string>)
    ensures var child := For(NestedValidator(b), func, shortPropertyName, typeDefault, displayName);
      child.PropertyName() == b.PropertyName() + "." + shortPropertyName
      && child.Command() == b.Command() && child.Object() == b.Value()
      && IsPathPrefix(NestedValidator(b).propertyPrefix)
  {
  }

  /**
   * Element prefixes are well formed, and the properties of two different
   * elements never share a path, whatever their short names.
   */
  lemma {:induction false} ElementPathsDistinct(path: string, i: nat, j: nat, s1: string, s2: string)
    ensures IsPathPrefix(ElementPrefix(path, i))
    ensures ElementPrefix(path, i) + s1 == ElementPrefix(path, j) + s2 ==> i == j
  {
    var a, c := NatToString(i), NatToString(j);
    var x1, x2 := ElementPrefix(path, i) + s1, ElementPrefix(path, j) + s2;
    var n := |path| + 1;
    assert x1 == path + "[" + a + "]." + s1;
    assert x2 == path + "[" + c + "]." + s2;
    if x1 == x2 {
      assert forall k :: 0 <= k < |a| ==> x1[n + k] == a[k];
      assert forall k :: 0 <= k < |c| ==> x2[n + k] == c[k];
      assert x1[n + |a|] == ']' && x2[n + |c|] == ']';
      assert !IsDigit(']');
      assert |a| == |c|;
      assert a == x1[n..n + |a|] == c;
      NatToStringInjective(i, j);
    }
  }

  /**
   * Rules added through the element validators of a collection register
   * under pairwise different paths.
   */
  lemma ElementValidatorsDistinct(b: PropertyValidator, i: nat, j: nat, s1: string, s2: string)
    requires b.Value().Null? || b.Value().Seq?
    requires i < |NestedValidators(b)| && j < |NestedValidators(b)| && i != j
    ensures NestedValidators(b)[i].propertyPrefix + s1 != NestedValidators(b)[j].propertyPrefix + s2
  {
    ElementPathsDistinct(b.PropertyName(), i, j, s1, s2);
  }

  /** The error record names the display name: the override if given, else the short name. */
  lemma DisplayNameInRecord(b: PropertyValidator, message: MessageTemplate, converter: Option<string -> string>)
    ensures b.displayName.Some? ==> CreateErrorInfo(b, message, converter).displayPropertyName == b.displayName.value
    ensures b.displayName.None? ==> CreateErrorInfo(b, message, converter).displayPropertyName == b.shortPropertyName
    ensures CreateErrorInfo(b, message, converter).propertyName == b.validator.propertyPrefix + b.shortPropertyName
  {
  }

  /** The converter sees the text in which `{PropertyName}` is already filled. */
  lemma ConverterAfterSubstitution(b: PropertyValidator, message: MessageTemplate, converter: string -> string)
    ensures CreateErrorInfo(b, message, Some(converter)).message
         == converter(CreateErrorInfo(b, message, None).message)
  {
  }

  /** A template without `{PropertyName}` and no converter is returned as it is. */
  lemma PlainMessageUnchanged(b: PropertyValidator, message: MessageTemplate)
    requires !Occurs(Placeholder("PropertyName"), message.text)
    ensures CreateErrorInfo(b, message, None).message == message.text
  {
    FillAbsent(message.text, [CreateTuple("PropertyName", Str(b.DisplayName()))]);
  }

  /** In a well-formed template, `{PropertyName}` holes turn into the display name. */
  lemma TemplateRendered(b: PropertyValidator, pieces: seq<Piece>, code: string)
    requires WellFormed(pieces)
    ensures CreateErrorInfo(b, MessageTemplate(code, Assemble(pieces)), None).message
         == Assemble(Subst(pieces, "PropertyName", b.DisplayName()))
  {
    FillOne(Assemble(pieces), "PropertyName", Str(b.DisplayName()));
    ReplaceAssembled(pieces, "PropertyName", b.DisplayName());
  }

  /** A template `<before>{PropertyName}<after>` renders as the display name between the two texts. */
  lemma RenderAroundName(b: PropertyValidator, code: string, before: string, after: string)
    requires '{' !in before && '{' !in after
    ensures CreateErrorInfo(b, MessageTemplate(code, Assemble([Text(before), Hole("PropertyName"), Text(after)])), None).message
         == before + b.DisplayName() + after
  {
    var d := b.DisplayName();
    var pieces := [Text(before), Hole("PropertyName"), Text(after)];
    TemplateRendered(b, pieces, code);
    assert Subst(pieces, "PropertyName", d) == [Text(before), Text(d), Text(after)];
    AssembleThree(Text(before), Text(d), Text(after));
  }

  /** The record of a failing NotEmpty with the default message. */
  lemma NotEmptyRecord(b: PropertyValidator)
    ensures NotEmptyCheck(b, None).Some? ==>
              NotEmptyCheck(b, None).value
              == ErrorInfo(b.PropertyName(), b.DisplayName(), "notempty_error",
                           "'" + b.DisplayName() + "' should not be empty.")
  {
    NotEmptyTemplateRendered(b);
    assert NotEmptyCheck(b, None).Some? ==>
      NotEmptyCheck(b, None).value == CreateErrorInfo(b, NotEmptyMessage, None);
  }

  /** The default NotEmpty template, filled. */
  lemma NotEmptyTemplateRendered(b: PropertyValidator)
    ensures CreateErrorInfo(b, NotEmptyMessage, None).message == "'" + b.DisplayName() + "' should not be empty."
  {
    assert '{' !in "'" && '{' !in "' should not be empty.";
    RenderAroundName(b, "notempty_error", "'", "' should not be empty.");
  }

  /** The record of a failing NotNull with the default message. */
  lemma NotNullRecord(b: PropertyValidator)
    ensures NotNullCheck(b, None).Some? ==>
              NotNullCheck(b, None).value
              == ErrorInfo(b.PropertyName(), b.DisplayName(), "notnull_error",
                           "'" + b.DisplayName() + "' must not be empty.")
  {
    NotNullTemplateRendered(b);
    assert NotNullCheck(b, None).Some? ==>
      NotNullCheck(b, None).value == CreateErrorInfo(b, NotNullMessage, None);
  }

  /** The default NotNull template, filled. */
  lemma NotNullTemplateRendered(b: PropertyValidator)
    ensures CreateErrorInfo(b, NotNullMessage, None).message == "'" + b.DisplayName() + "' must not be empty."
  {
    assert '{' !in "'" && '{' !in "' must not be empty.";
    RenderAroundName(b, "notnull_error", "'", "' must not be empty.");
  }

  /** The placeholder names of the built-in templates are brace-free and pairwise distinct. */
  lemma PlaceholderNames()
    ensures BraceFree("PropertyName") && BraceFree("ComparisonValue")
    ensures BraceFree("MinLength") && BraceFree("MaxLength") && BraceFree("TotalLength")
    ensures "PropertyName" != "ComparisonValue"
    ensures "PropertyName" != "MinLength" && "PropertyName" != "MaxLength" && "PropertyName" != "TotalLength"
    ensures "MinLength" != "MaxLength" && "MinLength" != "TotalLength" && "MaxLength" != "TotalLength"
  {
  }

  /**
   * A template `<t1>{PropertyName}<t2>{ComparisonValue}<t3>` renders the
   * display name and then the comparison value in their places.
   */
  lemma RenderComparison(b: PropertyValidator, code: string, t1: string, t2: string, t3: string, x: Value)
    requires '{' !in t1 && '{' !in t2 && '{' !in t3 && '{' !in b.DisplayName()
    ensures CreateErrorInfo(b, MessageTemplate(code,
              Assemble([Text(t1), Hole("PropertyName"), Text(t2), Hole("ComparisonValue"), Text(t3)])),
              Some(ComparisonConverter(x))).message
         == t1 + b.DisplayName() + t2 + ToString(x) + t3
  {
    var pn, cv := "PropertyName", "ComparisonValue";
    var text := Assemble([Text(t1), Hole(pn), Text(t2), Hole(cv), Text(t3)]);
    var d := b.DisplayName();
    FillWithOne(text, pn, Str(d));
    var named := Replace(text, Placeholder(pn), d);
    assert CreateErrorInfo(b, MessageTemplate(code, text), None).message == named;
    FillWithOne(named, cv, x);
    PlaceholderNames();
    ReplaceTwoHoles(t1, pn, t2, cv, t3, d, ToString(x));
  }

  /**
   * The record of a failing NotEqual with the default message, for a
   * display name that opens no placeholder.
   */
  lemma NotEqualRecord(b: PropertyValidator, comparisonValue: Value)
    requires '{' !in b.DisplayName()
    ensures NotEqualCheck(b, comparisonValue, None).Some? ==>
              NotEqualCheck(b, comparisonValue, None).value
              == ErrorInfo(b.PropertyName(), b.DisplayName(), "notequal_error",
                           "'" + b.DisplayName() + "' should not be equal to '" + ToString(comparisonValue) + "'.")
  {
    NotEqualTemplateRendered(b, comparisonValue);
    assert NotEqualCheck(b, comparisonValue, None).Some? ==>
      NotEqualCheck(b, comparisonValue, None).value
      == CreateErrorInfo(b, NotEqualMessage, Some(ComparisonConverter(comparisonValue)));
  }

  lemma NotEqualMessageShape()
    ensures NotEqualMessage == MessageTemplate("notequal_error", Assemble([Text("'"), Hole("PropertyName"),
      Text("' should not be equal to '"), Hole("ComparisonValue"), Text("'.")]))
  {
  }

  lemma NotEqualTextsBraceFree()
    ensures '{' !in "'" && '{' !in "' should not be equal to '" && '{' !in "'."
  {
  }

  /** The default NotEqual template, filled. */
  lemma NotEqualTemplateRendered(b: PropertyValidator, comparisonValue: Value)
    requires '{' !in b.DisplayName()
    ensures CreateErrorInfo(b, NotEqualMessage, Some(ComparisonConverter(comparisonValue))).message
         == "'" + b.DisplayName() + "' should not be equal to '" + ToString(comparisonValue) + "'."
  {
    NotEqualMessageShape();
    NotEqualTextsBraceFree();
    var t1, t2, t3 := "'", "' should not be equal to '", "'.";
    RenderComparison(b, "notequal_error", t1, t2, t3, comparisonValue);
  }

  /**
   * The converter re-scans the display name already inserted: a display
   * name that reads `{ComparisonValue}` is itself replaced by the
   * comparison value.
   */
  lemma RenderComparisonRescan(b: PropertyValidator, code: string, t1: string, t2: string, t3: string, x: Value)
    requires '{' !in t1 && '{' !in t2 && '{' !in t3
    requires b.DisplayName() == Placeholder("ComparisonValue")
    ensures CreateErrorInfo(b, MessageTemplate(code,
              Assemble([Text(t1), Hole("PropertyName"), Text(t2), Hole("ComparisonValue"), Text(t3)])),
              Some(ComparisonConverter(x))).message
         == t1 + ToString(x) + t2 + ToString(x) + t3
  {
    var pn, cv := "PropertyName", "ComparisonValue";
    var text := Assemble([Text(t1), Hole(pn), Text(t2), Hole(cv), Text(t3)]);
    var d := b.DisplayName();
    FillWithOne(text, pn, Str(d));
    var named := Replace(text, Placeholder(pn), Placeholder(cv));
    assert CreateErrorInfo(b, MessageTemplate(code, text), None).message == named;
    FillWithOne(named, cv, x);
    PlaceholderNames();
    ReplaceInsertedPlaceholder(t1, pn, t2, cv, t3, ToString(x));
  }

  lemma DisplayNameRescanned(b: PropertyValidator, comparisonValue: Value)
    requires b.DisplayName() == Placeholder("ComparisonValue")
    ensures NotEqualCheck(b, comparisonValue, None).Some? ==>
      NotEqualCheck(b, comparisonValue, None).value.message
      == "'" + ToString(comparisonValue) + "' should not be equal to '" + ToString(comparisonValue) + "'."
  {
    NotEqualMessageShape();
    NotEqualTextsBraceFree();
    var t1, t2, t3 := "'", "' should not be equal to '", "'.";
    RenderComparisonRescan(b, "notequal_error", t1, t2, t3, comparisonValue);
    assert NotEqualCheck(b, comparisonValue, None).Some? ==>
      NotEqualCheck(b, comparisonValue, None).value
      == CreateErrorInfo(b, NotEqualMessage, Some(ComparisonConverter(comparisonValue)));
  }

  /**
   * A template `<t1>{PropertyName}<t2>{MinLength}<t3>{MaxLength}<t4>{TotalLength}<t5>`
   * renders the display name, the bounds and the measured length in their places.
   */
  lemma RenderLength(b: PropertyValidator, code: string, t1: string, t2: string, t3: string, t4: string, t5: string,
                     minLength: int, maxLength: int, length: nat)
    requires '{' !in t1 && '{' !in t2 && '{' !in t3 && '{' !in t4 && '{' !in t5 && '{' !in b.DisplayName()
    ensures CreateErrorInfo(b, MessageTemplate(code,
              Assemble([Text(t1), Hole("PropertyName"), Text(t2), Hole("MinLength"), Text(t3),
                        Hole("MaxLength"), Text(t4), Hole("TotalLength"), Text(t5)])),
              Some(LengthConverter(minLength, maxLength, length))).message
         == t1 + b.DisplayName() + t2 + IntToString(minLength) + t3 + IntToString(maxLength) + t4
            + NatToString(length) + t5
  {
    var text := Assemble([Text(t1), Hole("PropertyName"), Text(t2), Hole("MinLength"), Text(t3),
                          Hole("MaxLength"), Text(t4), Hole("TotalLength"), Text(t5)]);
    FillWithOne(text, "PropertyName", Str(b.DisplayName()));
    PlaceholderNames();
    IntToStringBraceFree(minLength);
    IntToStringBraceFree(maxLength);
    IntToStringBraceFree(length);
    FillFourHoles(t1, "PropertyName", t2, "MinLength", t3, "MaxLength", t4, "TotalLength", t5,
                  b.DisplayName(), Int(minLength), Int(maxLength), Int(length));
  }

  lemma LengthMessageShape()
    ensures LengthMessage == MessageTemplate("length_error", Assemble([Text("'"), Hole("PropertyName"),
      Text("' must be between "), Hole("MinLength"), Text(" and "), Hole("MaxLength"),
      Text(" characters. You entered "), Hole("TotalLength"), Text(" characters.")]))
  {
  }

  lemma LengthTextsBraceFree()
    ensures '{' !in "'" && '{' !in "' must be between " && '{' !in " and "
    ensures '{' !in " characters. You entered " && '{' !in " characters."
  {
  }

  /** The default Length template, filled for a given measured length. */
  lemma LengthTemplateRendered(b: PropertyValidator, minLength: int, maxLength: int, length: nat)
    requires '{' !in b.DisplayName()
    ensures CreateErrorInfo(b, LengthMessage, Some(LengthConverter(minLength, maxLength, length))).message
         == "'" + b.DisplayName() + "' must be between " + IntToString(minLength) + " and " + IntToString(maxLength)
            + " characters. You entered " + NatToString(length) + " characters."
  {
    LengthMessageShape();
    LengthTextsBraceFree();
    var t1, t2, t3, t4, t5 := "'", "' must be between ", " and ", " characters. You entered ", " characters.";
    RenderLength(b, "length_error", t1, t2, t3, t4, t5, minLength, maxLength, length);
  }

  /**
   * The record of a failing Length with the default message, for a display
   * name that opens no placeholder.
   */
  lemma LengthRecord(b: PropertyValidator, minLength: int, maxLength: int)
    requires '{' !in b.DisplayName()
    ensures LengthCheck(b, minLength, maxLength, None).Some? ==>
              LengthCheck(b, minLength, maxLength, None).value
              == ErrorInfo(b.PropertyName(), b.DisplayName(), "length_error",
                           "'" + b.DisplayName() + "' must be between " + IntToString(minLength) + " and "
                           + IntToString(maxLength) + " characters. You entered "
                           + NatToString(LengthOf(b.Value())) + " characters.")
  {
    var length := LengthOf(b.Value());
    LengthTemplateRendered(b, minLength, maxLength, length);
    assert LengthCheck(b, minLength, maxLength, None).Some? ==>
      LengthCheck(b, minLength, maxLength, None).value
      == CreateErrorInfo(b, LengthMessage, Some(LengthConverter(minLength, maxLength, length)));
  }
}
