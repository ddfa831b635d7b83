/**
 * The library's tests (Tests.cs), replayed on the model: each method builds
 * an object graph, attaches rules the way its test does, validates, and
 * states what is returned: mostly the exact error records;
 * `CommandWithOneRule` states the fields its test asserts, and
 * `SecondRuleRunsAfterPass` states which rules run and the path and code of
 * its one error.
 *
 * The `...Text` lemmas below only spell out literal string concatenations.
 * They model nothing in the library and serve as hints to the solver.
 */
module Scenarios {
  import opened Values
  import opened MessageFormatter
  import opened Commands
  import opened Validators
  import opened Properties

  /** A message with none of its properties set. */
  const EmptyMessage := Obj(map["Person" := Null, "Subject" := Null, "Body" := Null, "Attachments" := Null])

  /** The accessor of a named property. */
  function Property(name: string): Value -> Value
  {
    o => Field(o, name)
  }

  /** A rule registered directly on a command reports its own error. */
  method CommandWithOneRule() returns (errors: seq<ErrorInfo>)
    ensures |errors| == 1 && errors[0].propertyName == "Subject"
    ensures errors[0].message == "'Subject' should not be empty."
  {
    var command := new ValidationCommand();
    var error := ErrorInfo("Subject", "", "", "'Subject' should not be empty.");
    command.Add("Subject", () => if Field(EmptyMessage, "Subject") == Null then Some(error) else None);
    var invoked;
    errors, invoked := command.Validate();
  }

  lemma SubjectText()
    ensures "'" + "Subject" + "' should not be empty." == "'Subject' should not be empty."
  {
  }

  lemma FileNameText()
    ensures "'" + "FileName" + "' should not be empty." == "'FileName' should not be empty."
  {
  }

  lemma DisplayNameText()
    ensures "'" + "Message subject" + "' should not be empty." == "'Message subject' should not be empty."
  {
  }

  /** An unset text property fails NotEmpty with the default message and code. */
  method SubjectNotEmpty() returns (errors: seq<ErrorInfo>)
    ensures errors == [ErrorInfo("Subject", "Subject", "notempty_error", "'Subject' should not be empty.")]
  {
    var root := ValidatorOf(EmptyMessage);
    var subject := For(root, Property("Subject"), "Subject", Null, None);
    subject := NotEmpty(subject, None);
    errors := root.Validate();
    OutcomeOfOne(root.command.items);
    NotEmptyRecord(subject);
    assert subject.PropertyName() == "Subject";
    SubjectText();
  }

  /** A display name is shown in the message but the path stays the short name. */
  method SubjectWithDisplayName() returns (errors: seq<ErrorInfo>)
    ensures errors == [ErrorInfo("Subject", "Message subject", "notempty_error",
                                 "'Message subject' should not be empty.")]
  {
    var root := ValidatorOf(EmptyMessage);
    var subject := For(root, Property("Subject"), "Subject", Null, Some("Message subject"));
    subject := NotEmpty(subject, None);
    errors := root.Validate();
    OutcomeOfOne(root.command.items);
    NotEmptyRecord(subject);
    assert subject.PropertyName() == "Subject";
    DisplayNameText();
  }

  lemma Int2EmptyText()
    ensures "'" + "Int2" + "' should not be empty." == "'Int2' should not be empty."
  {
  }

  lemma NullableInt1EmptyText()
    ensures "'" + "NullableInt1" + "' should not be empty." == "'NullableInt1' should not be empty."
  {
  }

  lemma List1EmptyText()
    ensures "'" + "List1" + "' should not be empty." == "'List1' should not be empty."
  {
  }

  /** A zero integer equals its type's default, so NotEmpty fails on it. */
  method NotEmptyInt() returns (errors: seq<ErrorInfo>)
    ensures errors == [ErrorInfo("Int2", "Int2", "notempty_error", "'Int2' should not be empty.")]
  {
    var root := ValidatorOf(Entity1);
    var int2 := For(root, Property("Int2"), "Int2", Int(0), None);
    int2 := NotEmpty(int2, None);
    errors := root.Validate();
    OutcomeOfOne(root.command.items);
    NotEmptyRecord(int2);
    assert int2.PropertyName() == "Int2";
    Int2EmptyText();
  }

  /** An absent nullable integer equals the nullable type's default, null. */
  method NotEmptyNullableInt() returns (errors: seq<ErrorInfo>)
    ensures errors == [ErrorInfo("NullableInt1", "NullableInt1", "notempty_error",
                                 "'NullableInt1' should not be empty.")]
  {
    var root := ValidatorOf(Entity1);
    var nullableInt1 := For(root, Property("NullableInt1"), "NullableInt1", Null, None);
    nullableInt1 := NotEmpty(nullableInt1, None);
    errors := root.Validate();
    OutcomeOfOne(root.command.items);
    NotEmptyRecord(nullableInt1);
    assert nullableInt1.PropertyName() == "NullableInt1";
    NullableInt1EmptyText();
  }

  /** An empty list fails NotEmpty. */
  method NotEmptyList() returns (errors: seq<ErrorInfo>)
    ensures errors == [ErrorInfo("List1", "List1", "notempty_error", "'List1' should not be empty.")]
  {
    var root := ValidatorOf(Entity1);
    var list1 := For(root, Property("List1"), "List1", Null, None);
    list1 := NotEmpty(list1, None);
    errors := root.Validate();
    OutcomeOfOne(root.command.items);
    NotEmptyRecord(list1);
    assert list1.PropertyName() == "List1";
    List1EmptyText();
  }

  /** An absent list fails NotEmpty like an empty one. */
  method NotEmptyNullList() returns (errors: seq<ErrorInfo>)
    ensures errors == [ErrorInfo("List1", "List1", "notempty_error", "'List1' should not be empty.")]
  {
    var root := ValidatorOf(Entity1.(fields := Entity1.fields["List1" := Null]));
    var list1 := For(root, Property("List1"), "List1", Null, None);
    list1 := NotEmpty(list1, None);
    errors := root.Validate();
    OutcomeOfOne(root.command.items);
    NotEmptyRecord(list1);
    assert list1.PropertyName() == "List1";
    List1EmptyText();
  }

  /** NotEmpty on the fixture entity once filled in: a set integer and a list with an element pass. */
  lemma NotEmptyOnFilledEntity(w: Validator)
    requires w.obj == Obj(map["NullableInt1" := Int(0), "Int2" := Int(7), "List1" := Seq([Str("a")])])
    ensures NotEmptyCheck(For(w, Property("Int2"), "Int2", Int(0), None), None).None?
    ensures NotEmptyCheck(For(w, Property("NullableInt1"), "NullableInt1", Null, None), None).None?
    ensures NotEmptyCheck(For(w, Property("List1"), "List1", Null, None), None).None?
  {
  }

  /** A rule attached through a nested validator is reported by the root, under the dotted path. */
  method NestedObject() returns (errors: seq<ErrorInfo>)
    ensures errors == [ErrorInfo("Person.FirstName", "FirstName", "notempty_error", "'FirstName' should not be empty.")]
  {
    var message := EmptyMessage.(fields := EmptyMessage.fields["Person" := Obj(map["FirstName" := Null])]);
    var root := ValidatorOf(message);
    var person := For(root, Property("Person"), "Person", Null, None);
    var firstName := For(NestedValidator(person), Property("FirstName"), "FirstName", Null, None);
    firstName := NotEmpty(firstName, None);
    errors := root.Validate();
    OutcomeOfOne(root.command.items);
    NotEmptyRecord(firstName);
    NestedPathText();
    FirstNameText();
  }

  lemma NestedPathText()
    ensures "" + "Person" + "." + "FirstName" == "Person.FirstName"
  {
  }

  lemma FirstNameText()
    ensures "'" + "FirstName" + "' should not be empty." == "'FirstName' should not be empty."
  {
  }

  lemma ElementPathTexts()
    ensures ElementPrefix("" + "Attachments", 0) + "FileName" == "Attachments[0].FileName"
    ensures ElementPrefix("" + "Attachments", 1) + "FileName" == "Attachments[1].FileName"
  {
    assert NatToString(0) == "0" && NatToString(1) == "1";
  }

  /**
   * Rules attached to each element of a collection are reported by the
   * root, one error per element, in element order, under indexed paths.
   */
  method NestedCollection() returns (errors: seq<ErrorInfo>)
    ensures errors == [
      ErrorInfo("Attachments[0].FileName", "FileName", "notempty_error", "'FileName' should not be empty."),
      ErrorInfo("Attachments[1].FileName", "FileName", "notempty_error", "'FileName' should not be empty.")]
  {
    var attachment := Obj(map["FileName" := Null]);
    var message := EmptyMessage.(fields := EmptyMessage.fields["Attachments" := Seq([attachment, attachment])]);
    var root := ValidatorOf(message);
    var attachments := For(root, Property("Attachments"), "Attachments", Null, None);
    var validators := NestedValidators(attachments);
    var i := 0;
    while i < |validators|
      invariant 0 <= i <= |validators|
      invariant |root.command.items| == i
      invariant forall k :: 0 <= k < i ==>
                  root.command.items[k].propertyName == validators[k].propertyPrefix + "FileName"
                  && root.command.items[k].func().result
                     == NotEmptyCheck(For(validators[k], Property("FileName"), "FileName", Null, None), None)
    {
      var fileName := For(validators[i], Property("FileName"), "FileName", Null, None);
      fileName := NotEmpty(fileName, None);
      i := i + 1;
    }
    errors := root.Validate();
    var first := For(validators[0], Property("FileName"), "FileName", Null, None);
    var second := For(validators[1], Property("FileName"), "FileName", Null, None);
    ElementValidatorsDistinct(attachments, 0, 1, "FileName", "FileName");
    FileNameRecord(first);
    FileNameRecord(second);
    ElementPathTexts();
    BothFail(root.command.items);
  }

  /** An absent file name fails NotEmpty under the binding's path. */
  lemma FileNameRecord(b: PropertyValidator)
    requires b.shortPropertyName == "FileName" && b.displayName.None? && b.Value() == Null && b.typeDefault == Null
    ensures NotEmptyCheck(b, None)
            == Some(ErrorInfo(b.PropertyName(), "FileName", "notempty_error", "'FileName' should not be empty."))
  {
    NotEmptyRecord(b);
    FileNameText();
  }

  /** Two failing rules under different paths both report, in order. */
  lemma BothFail(items: seq<Item>)
    requires |items| == 2 && items[0].propertyName != items[1].propertyName
    requires items[0].func().result.Some? && items[1].func().result.Some?
    ensures Outcome(items).errors == [items[0].func().result.value, items[1].func().result.value]
  {
    OutcomeOfTwo(items);
  }

  /** The fixture entity with its initial values: no nullable integer, a zero integer, an empty list. */
  const Entity1 := Obj(map["NullableInt1" := Null, "Int2" := Int(0), "List1" := Seq([])])

  lemma NullableIntNotNullText()
    ensures "'" + "NullableInt1" + "' must not be empty." == "'NullableInt1' must not be empty."
  {
  }

  lemma PersonNotNullText()
    ensures "'" + "Person" + "' must not be empty." == "'Person' must not be empty."
  {
  }

  /** An absent nullable integer fails NotNull. */
  method NullableIntNotNull() returns (errors: seq<ErrorInfo>)
    ensures errors == [ErrorInfo("NullableInt1", "NullableInt1", "notnull_error", "'NullableInt1' must not be empty.")]
  {
    var root := ValidatorOf(Entity1);
    var nullableInt := For(root, Property("NullableInt1"), "NullableInt1", Null, None);
    nullableInt := NotNull(nullableInt, None);
    errors := root.Validate();
    OutcomeOfOne(root.command.items);
    NotNullRecord(nullableInt);
    assert nullableInt.PropertyName() == "NullableInt1";
    NullableIntNotNullText();
  }

  /** An absent object-valued property fails NotNull. */
  method PersonNotNull() returns (errors: seq<ErrorInfo>)
    ensures errors == [ErrorInfo("Person", "Person", "notnull_error", "'Person' must not be empty.")]
  {
    var root := ValidatorOf(EmptyMessage);
    var person := For(root, Property("Person"), "Person", Null, None);
    person := NotNull(person, None);
    errors := root.Validate();
    OutcomeOfOne(root.command.items);
    NotNullRecord(person);
    assert person.PropertyName() == "Person";
    PersonNotNullText();
  }

  lemma SevenText()
    ensures ToString(Int(7)) == "7"
  {
  }

  lemma NotEqualText()
    ensures "'" + "Int2" + "' should not be equal to '" + "7" + "'." == "'Int2' should not be equal to '7'."
  {
  }

  lemma Int2Record(b: PropertyValidator)
    requires b.PropertyName() == "Int2" && b.DisplayName() == "Int2" && b.Value() == Int(7)
    ensures NotEqualCheck(b, Int(7), None)
            == Some(ErrorInfo("Int2", "Int2", "notequal_error", "'Int2' should not be equal to '7'."))
  {
    NotEqualRecord(b, Int(7));
    SevenText();
    NotEqualText();
  }

  /** A value equal to the comparison value fails NotEqual, and the message shows that value. */
  method Int2NotEqual() returns (errors: seq<ErrorInfo>)
    ensures errors == [ErrorInfo("Int2", "Int2", "notequal_error", "'Int2' should not be equal to '7'.")]
  {
    var entity := Entity1.(fields := Entity1.fields["Int2" := Int(7)]);
    var root := ValidatorOf(entity);
    var int2 := For(root, Property("Int2"), "Int2", Int(0), None);
    int2 := NotEqual(int2, Int(7), None);
    errors := root.Validate();
    OutcomeOfOne(root.command.items);
    assert int2.PropertyName() == "Int2" && int2.Value() == Int(7);
    Int2Record(int2);
  }

  lemma LengthTextHead()
    ensures "'" + "Subject" + "' must be between " + IntToString(3) + " and " + IntToString(5)
         == "'Subject' must be between 3 and 5"
  {
    assert IntToString(3) == "3" && IntToString(5) == "5";
  }

  lemma LengthTextTail()
    ensures " characters. You entered " + NatToString(8) + " characters." == " characters. You entered 8 characters."
  {
    assert NatToString(8) == "8";
  }

  lemma LengthTextJoin()
    ensures "'Subject' must be between 3 and 5" + " characters. You entered 8 characters."
         == "'Subject' must be between 3 and 5 characters. You entered 8 characters."
  {
  }

  /** A text longer than the maximum fails Length, and the message shows bounds and length. */
  method SubjectLength() returns (errors: seq<ErrorInfo>)
    ensures errors == [ErrorInfo("Subject", "Subject", "length_error",
                                 "'Subject' must be between 3 and 5 characters. You entered 8 characters.")]
  {
    var message := EmptyMessage.(fields := EmptyMessage.fields["Subject" := Str("Subject1")]);
    var root := ValidatorOf(message);
    var subject := For(root, Property("Subject"), "Subject", Null, None);
    subject := Length(subject, 3, 5, None);
    errors := root.Validate();
    OutcomeOfOne(root.command.items);
    assert subject.PropertyName() == "Subject" && LengthOf(subject.Value()) == 8;
    SubjectLengthRecord(subject);
  }

  lemma SubjectLengthRecord(b: PropertyValidator)
    requires b.PropertyName() == "Subject" && b.DisplayName() == "Subject" && LengthOf(b.Value()) == 8
    ensures LengthCheck(b, 3, 5, None)
            == Some(ErrorInfo("Subject", "Subject", "length_error",
                              "'Subject' must be between 3 and 5 characters. You entered 8 characters."))
  {
    LengthRecord(b, 3, 5);
    LengthMessageSplit(b.DisplayName(), IntToString(3), IntToString(5), NatToString(LengthOf(b.Value())));
    LengthTextHead();
    LengthTextTail();
    LengthTextJoin();
  }

  lemma LengthMessageSplit(d: string, lo: string, hi: string, n: string)
    ensures "'" + d + "' must be between " + lo + " and " + hi + " characters. You entered " + n + " characters."
         == ("'" + d + "' must be between " + lo + " and " + hi) + (" characters. You entered " + n + " characters.")
  {
  }

  /** The message with its subject and body set. */
  const FilledMessage := EmptyMessage.(fields := EmptyMessage.fields["Subject" := Str("Subject1")]["Body" := Str("Body1")])

  /** A resource message without placeholders. */
  const TestMessage2 := MessageTemplate("TestMessage2", "Test message.")

  /** A resource message with two named placeholders. */
  const TestMessage3 := MessageTemplate("TestMessage3", Assemble([Text("Test message '"), Hole("Subject"), Text("', '"), Hole("Body"), Text("'.")]))

  /** A custom rule that reports the plain resource message when the subject has a given value. */
  function PlainRule(v: PropertyValidator): Option<ErrorInfo>
  {
    if v.Value() == Str("Subject1") then Some(CreateErrorInfo(v, TestMessage2, None)) else None
  }

  /** A converter filling two named placeholders, in order. */
  function NamedArgs(n1: string, v1: Value, n2: string, v2: Value): string -> string
  {
    text => ReplacePlaceholderWithValue(text, [CreateTuple(n1, v1), CreateTuple(n2, v2)])
  }

  /** A custom rule whose converter fills the subject and the body into the resource message. */
  function NamedArgsRule(v: PropertyValidator): Option<ErrorInfo>
  {
    if v.Value() == Str("Subject1")
    then Some(CreateErrorInfo(v, TestMessage3, Some(NamedArgs("Subject", v.Value(), "Body", Field(v.Object(), "Body")))))
    else None
  }

  lemma PlainRuleRecord(b: PropertyValidator)
    requires b.Value() == Str("Subject1")
    ensures PlainRule(b) == Some(ErrorInfo(b.PropertyName(), b.DisplayName(), "TestMessage2", "Test message."))
  {
    NoBraceNoPlaceholder(TestMessage2.text, "PropertyName");
    PlainMessageUnchanged(b, TestMessage2);
  }

  /** A custom rule built with CreateErrorInfo reports the resource message and code. */
  method CustomRule() returns (errors: seq<ErrorInfo>)
    ensures errors == [ErrorInfo("Subject", "Subject", "TestMessage2", "Test message.")]
  {
    var root := ValidatorOf(FilledMessage);
    var subject := For(root, Property("Subject"), "Subject", Null, None);
    subject := Add(subject, PlainRule);
    errors := root.Validate();
    OutcomeOfOne(root.command.items);
    assert subject.PropertyName() == "Subject" && subject.Value() == Str("Subject1");
    PlainRuleRecord(subject);
  }

  /**
   * A converter that fills two named placeholders of a template with no
   * `{PropertyName}` hole: the values land in their holes.
   */
  lemma NamedArgsRendered(b: PropertyValidator, code: string, t1: string, n1: string, t2: string, n2: string, t3: string,
                          v1: Value, v2: Value)
    requires '{' !in t1 && '{' !in t2 && '{' !in t3 && '{' !in ToString(v1)
    requires BraceFree(n1) && BraceFree(n2) && n1 != n2 && n1 != "PropertyName" && n2 != "PropertyName"
    ensures CreateErrorInfo(b, MessageTemplate(code, Assemble([Text(t1), Hole(n1), Text(t2), Hole(n2), Text(t3)])),
                            Some(NamedArgs(n1, v1, n2, v2))).message
         == t1 + ToString(v1) + t2 + ToString(v2) + t3
  {
    var pieces := [Text(t1), Hole(n1), Text(t2), Hole(n2), Text(t3)];
    var template := MessageTemplate(code, Assemble(pieces));
    TemplateRendered(b, pieces, code);
    assert Subst(pieces, "PropertyName", b.DisplayName()) == pieces;
    ConverterAfterSubstitution(b, template, NamedArgs(n1, v1, n2, v2));
    FillTwoHoles(t1, n1, t2, n2, t3, v1, v2);
  }

  lemma NamedArgsText()
    ensures "Test message '" + ToString(Str("Subject1")) + "', '" + ToString(Str("Body1")) + "'."
         == "Test message 'Subject1', 'Body1'."
  {
  }

  lemma NamedArgsRuleRecord(b: PropertyValidator)
    requires b.Value() == Str("Subject1") && Field(b.Object(), "Body") == Str("Body1")
    ensures NamedArgsRule(b) == Some(ErrorInfo(b.PropertyName(), b.DisplayName(), "TestMessage3", "Test message 'Subject1', 'Body1'."))
  {
    assert BraceFree("Subject") && BraceFree("Body");
    NamedArgsRendered(b, "TestMessage3", "Test message '", "Subject", "', '", "Body", "'.", Str("Subject1"), Str("Body1"));
    NamedArgsText();
  }

  /** A converter can fill named placeholders of its own with values of the object. */
  method CustomRuleWithNamedArgs() returns (errors: seq<ErrorInfo>)
    ensures errors == [ErrorInfo("Subject", "Subject", "TestMessage3", "Test message 'Subject1', 'Body1'.")]
  {
    var root := ValidatorOf(FilledMessage);
    var subject := For(root, Property("Subject"), "Subject", Null, None);
    subject := Add(subject, NamedArgsRule);
    errors := root.Validate();
    OutcomeOfOne(root.command.items);
    assert subject.PropertyName() == "Subject" && subject.Value() == Str("Subject1");
    assert Field(subject.Object(), "Body") == Str("Body1");
    NamedArgsRuleRecord(subject);
  }
  /**
   * Two rules on one property: when the first fails, the second is never
   * run and only the first error is reported.
   */
  method FirstErrorWins() returns (errors: seq<ErrorInfo>, invoked: seq<nat>)
    ensures invoked == [0]
    ensures errors == [ErrorInfo("Subject", "Subject", "notempty_error", "'Subject' should not be empty.")]
  {
    var root := ValidatorOf(EmptyMessage);
    var subject := For(root, Property("Subject"), "Subject", Null, None);
    subject := NotEmpty(subject, None);
    ghost var first := root.command.items[0];
    subject := Length(subject, 1, 10, None);
    assert root.command.items[0] == first;
    errors, invoked := root.command.Validate();
    assert subject.PropertyName() == "Subject";
    SubjectRecord(subject);
    FirstFailsSamePath(root.command.items);
  }

  lemma SubjectRecord(b: PropertyValidator)
    requires b.PropertyName() == "Subject" && b.DisplayName() == "Subject" && b.Value() == Null && b.typeDefault == Null
    ensures NotEmptyCheck(b, None)
            == Some(ErrorInfo("Subject", "Subject", "notempty_error", "'Subject' should not be empty."))
  {
    NotEmptyRecord(b);
    SubjectText();
  }

  /** Two rules under one path whose first fails: only the first runs and reports. */
  lemma FirstFailsSamePath(items: seq<Item>)
    requires |items| == 2 && items[0].propertyName == items[1].propertyName && items[0].func().result.Some?
    ensures Outcome(items).invoked == [0] && Outcome(items).errors == [items[0].func().result.value]
  {
    OutcomeOfTwo(items);
  }

  /**
   * When the first rule on a property passes, the second one is run and may
   * report: a subject that is not blank but longer than five characters
   * passes NotEmpty and fails Length(3, 5).
   */
  method SecondRuleRunsAfterPass(text: string) returns (errors: seq<ErrorInfo>, invoked: seq<nat>)
    requires |text| > 5 && !IsWhiteSpace(text[0])
    ensures invoked == [0, 1]
    ensures |errors| == 1 && errors[0].propertyName == "Subject" && errors[0].code == "length_error"
  {
    var message := EmptyMessage.(fields := EmptyMessage.fields["Subject" := Str(text)]);
    var root := ValidatorOf(message);
    var subject := For(root, Property("Subject"), "Subject", Null, None);
    subject := NotEmpty(subject, None);
    ghost var first := root.command.items[0];
    subject := Length(subject, 3, 5, None);
    assert root.command.items[0] == first;
    errors, invoked := root.command.Validate();
    assert subject.Value() == Str(text) && subject.PropertyName() == "Subject";
    PassThenLengthFails(root.command.items, subject);
  }

  /** NotEmpty then Length(3, 5) on a long, non-blank text: both run, Length reports. */
  lemma PassThenLengthFails(items: seq<Item>, b: PropertyValidator)
    requires |items| == 2
    requires items[0].func().result == NotEmptyCheck(b, None)
    requires items[1].func().result == LengthCheck(b, 3, 5, None)
    requires b.Value().Str? && |b.Value().s| > 5 && !IsWhiteSpace(b.Value().s[0])
    ensures Outcome(items).invoked == [0, 1]
    ensures Outcome(items).errors == [LengthCheck(b, 3, 5, None).value]
  {
    assert NotEmptyCheck(b, None).None? && LengthCheck(b, 3, 5, None).Some?;
    OutcomeOfTwo(items);
  }

  /** Validating twice runs the same rules and gives the same errors. */
  method ValidateTwice() returns (first: seq<ErrorInfo>, second: seq<ErrorInfo>)
    ensures first == second == [ErrorInfo("Subject", "Subject", "notempty_error", "'Subject' should not be empty.")]
  {
    var root := ValidatorOf(EmptyMessage);
    var subject := For(root, Property("Subject"), "Subject", Null, None);
    subject := NotEmpty(subject, None);
    first := root.Validate();
    second := root.Validate();
    OutcomeOfOne(root.command.items);
    NotEmptyRecord(subject);
    assert subject.PropertyName() == "Subject";
    SubjectText();
  }
}
