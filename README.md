# ObjectValidator — a Dafny model of the validation engine

ObjectValidator is a small .NET library for declaring validation rules on an
object graph. A *validator* wraps one object. `For` binds one property of it,
and built-in rules (`NotEmpty`, `NotNull`, `NotEqual`, `Length`) or custom
rules (`Add`) are attached to that binding. Every rule lands in one ordered
*validation command* that the whole graph shares. `Validate` runs the rules
in registration order. Once a rule has reported an error for a property
path, the later rules for that path are skipped. So the result holds the
first error of each failing path, in order. Each error record carries the
path, the display name, an error code and a message. The message comes from
a template whose `{Name}` placeholders are filled by a left fold of
`Replace` over (name, value) pairs.

The model has six modules:

- `Values` (values.dfy): the property values of the object graph. A value
  is null, a string, an integer, a list or an object with named fields.
  The module also holds the error record, a completed task, and the decimal
  rendering of integers.
- `MessageFormatter` (message_formatter.dfy): `Replace`, the placeholder
  fill and its laws. `Replace` is characterised against a Split/Join
  reference definition, whose cuts are proved to fall at the leftmost
  occurrences. Templates are also built as lists of literal text
  and holes (`Piece`), which gives the fill an independent description.
- `Commands` (validation_command.dfy): the class `ValidationCommand`.
  - It has a `seq` of items. `Add` appends to it.
  - `Validate` is a loop proved against the specification function
    `Evaluate`.
  - Lemmas about `Evaluate` state what is reported, what is skipped and
    what is invoked.
  - `Validate` also returns, as a second result, the indices of the rules
    it ran, so that skipping can be stated.
- `Validators` (validator.dfy): the validator. It holds the object, the
  shared command and the path prefix.
- `Properties` (property_validator.dfy): the property binding.
  - Path and display name.
  - Nested validators for object-valued and list-valued properties.
  - The four built-in rules, as check functions plus registering methods.
  - `CreateErrorInfo`, and the rendered default messages.
- `Scenarios` (scenarios.dfy): the library's tests (Tests.cs) replayed on
  the model. Most state the exact error records returned.
  `CommandWithOneRule` states the fields its test asserts: the count, the
  path and the message. `SecondRuleRunsAfterPass` states which rules run,
  and the path and code of its one error.

One might expect text already substituted into a message not to be
scanned again. The code applies one `Replace` per pair, over the text
produced so far. So a later pair also rewrites the text an earlier pair inserted. For
example, a display name that reads `{ComparisonValue}` is itself replaced by
the comparison value. The model proves this behaviour:
`MessageFormatter.FillRescansInsertedText` shows it on the formatter, and
`Properties.DisplayNameRescanned` shows it on NotEqual.

The entities of the library appear as these datatypes and constants:

- `Commands.Item` is the private `Item` of the command
  (ValidationCommand.cs:37-47): a property path and a rule.
- `Validators.Validator` is `Validator<T>` (Validator.cs:15-26): the
  object, the shared command and the path prefix. `ValidatorOf`,
  `NestedValidator` and `NestedValidators` build it as the library does.
- `Properties.PropertyValidator` is `PropertyValidator<T, TProperty>`
  (PropertyValidator.cs:23-34): the validator, the accessor and the
  optional display name. The short name and the type's default are carried
  explicitly. `For` builds it, and `ForBinding` states its fields.
- `Properties.MessageTemplate` is a message resource: its name (the error
  code) and its text. `NotEmptyMessage`, `NotNullMessage`,
  `NotEqualMessage` and `LengthMessage` are the en-US defaults that
  PropertyValidator.cs:79, 87, 94 and 103 look up. Each is built from
  text and holes (`NotEmptyPieces` and so on). The `*TemplateRendered`
  lemmas state how each default renders.

## Model

| member | source | states |
|---|---|---|
| Values.IntToString | ObjectValidator/PropertyValidator.cs:104-107 | an integer renders as its shortest decimal form: digits that read back as the number when non-negative, a '-' then the digits of its absolute value when negative; no leading zero except the text "0" |
| Values.NatToString | ObjectValidator/PropertyValidator.cs:60 | the index `{i}` in an element path renders as a non-empty run of digits with no leading zero unless the index is 0; `ParseNatToString` reads it back |
| Values.ToString | ObjectValidator/MessageFormatter.cs:9 | no contract of its own: an absent value renders as the empty text, a string as itself and an integer through `IntToString`; `IntToStringBraceFree` and `FillNullDeletes` state what that means for the fill |
| Values.ParseNatToString | ObjectValidator/PropertyValidator.cs:59-60 | reading the decimal rendering of an index back gives the index (round trip) |
| Values.NatToStringInjective | ObjectValidator/PropertyValidator.cs:59-60 | two different indices never render to the same text |
| Values.IntToStringBraceFree | ObjectValidator/PropertyValidator.cs:104-107 | a rendered length or bound holds no brace, so it cannot form a placeholder |
| MessageFormatter.Replace | ObjectValidator/MessageFormatter.cs:9 | no contract of its own: `ReplaceIsJoinOfSplit`, `ReplaceAbsent` and `ReplaceAssembled` characterise it against Split/Join and against templates |
| MessageFormatter.Split | ObjectValidator/MessageFormatter.cs:9 | at least one piece, the first a prefix of the text; `SplitFirstCutLeftmost`, `SplitFirstCutAt` and `SplitAfterFirstCut` fix each cut at the leftmost occurrence |
| MessageFormatter.SplitFirstCutLeftmost | ObjectValidator/MessageFormatter.cs:9 | no occurrence of the searched value starts inside the first piece |
| MessageFormatter.SplitFirstCutAt | ObjectValidator/MessageFormatter.cs:9 | with one piece the text is whole; with more, an occurrence starts right after the first piece |
| MessageFormatter.SplitAfterFirstCut | ObjectValidator/MessageFormatter.cs:9 | the pieces after the first are the cut of the text after the first occurrence |
| MessageFormatter.JoinSplit | ObjectValidator/MessageFormatter.cs:9 | the pieces cut at the separator, glued with it, give back the text |
| MessageFormatter.SplitPiecesFree | ObjectValidator/MessageFormatter.cs:9 | no piece left by the cut contains the separator |
| MessageFormatter.ReplaceIsJoinOfSplit | ObjectValidator/MessageFormatter.cs:9 | string Replace equals cutting at the non-overlapping occurrences and gluing with the new value |
| MessageFormatter.ReplaceAbsent | ObjectValidator/MessageFormatter.cs:9 | Replace leaves text without the searched value unchanged |
| MessageFormatter.Placeholder | ObjectValidator/MessageFormatter.cs:9 | the placeholder of a name is the name wrapped in one '{' and one '}' |
| MessageFormatter.CreateTuple | ObjectValidator/MessageFormatter.cs:11 | the pair holds the key and the value unchanged |
| MessageFormatter.ReplacePlaceholderWithValue | ObjectValidator/MessageFormatter.cs:8-9 | no contract of its own: `FillWithOne`, `FillAppend`, `FillAbsent` and `FillAssembled` state that it is a left fold of one `Replace` per pair |
| MessageFormatter.FillWithOne | ObjectValidator/MessageFormatter.cs:8-9 | filling with one pair is one Replace of its placeholder by the value's text |
| MessageFormatter.FillAppend | ObjectValidator/MessageFormatter.cs:8-9 | filling with pairs a + b is filling with a, then with b (a left fold) |
| MessageFormatter.FillOne | ObjectValidator/MessageFormatter.cs:8-9 | one pair cuts the text at its placeholder and glues with the value's text |
| MessageFormatter.FillNullDeletes | ObjectValidator/MessageFormatter.cs:9 | an absent value deletes its placeholder |
| MessageFormatter.FillAbsent | ObjectValidator/MessageFormatter.cs:8-9 | pairs whose placeholders do not occur leave the text unchanged |
| MessageFormatter.FillSingle | ObjectValidator/MessageFormatter.cs:9 | a placeholder between brace-free text renders as the value's text |
| MessageFormatter.FillRescansInsertedText | ObjectValidator/MessageFormatter.cs:9 | a value inserted by an earlier pair is rewritten by a later pair whose placeholder it spells |
| MessageFormatter.ReplaceAssembled | ObjectValidator/MessageFormatter.cs:9 | in a well-formed template, one Replace turns exactly the holes of that name into the new text |
| MessageFormatter.FillAssembled | ObjectValidator/MessageFormatter.cs:8-9 | filling a well-formed template with brace-free values is substituting its holes pair by pair, and keeps it well formed |
| MessageFormatter.ReplaceTwoHoles | ObjectValidator/MessageFormatter.cs:9 | two rounds of Replace put each value in its own hole of a two-hole template |
| MessageFormatter.FillTwoHoles | ObjectValidator/MessageFormatter.cs:8-9 | two pairs, one per hole, put each value in its own hole |
| MessageFormatter.ReplaceInsertedPlaceholder | ObjectValidator/MessageFormatter.cs:9 | a first value that spells the second placeholder is replaced in the second round |
| MessageFormatter.FillFourHoles | ObjectValidator/MessageFormatter.cs:8-9 | one Replace of the first hole, then the pairs of the third, second and fourth holes in that order (Length's order), fill a four-hole template, each value in its hole; `FillAssembled` covers every other order |
| MessageFormatter.NoBraceNoPlaceholder | ObjectValidator/MessageFormatter.cs:9 | text without '{' contains no placeholder |
| Commands.Evaluate | ObjectValidator/ValidationCommand.cs:18-35 | no contract of its own: the pass over the first n items; `EvaluateDecided`, `EvaluateInvoked`, `EvaluateErrors`, `EvaluateCounts` and `EvaluateExtend` characterise it |
| Commands.Outcome | ObjectValidator/ValidationCommand.cs:18-35 | no contract of its own: the pass over all items, which `Validate` returns; `NoErrorsIffNoFailure`, `ErrorCountBound` and `ErrorPathsDistinct` are stated about it |
| Commands.FirstFailures | ObjectValidator/ValidationCommand.cs:22-33 | lists in ascending order exactly the items that fail with no earlier failure for their path |
| Commands.EvaluateDecided | ObjectValidator/ValidationCommand.cs:21-31 | a path enters the skip set exactly when some item for it has failed |
| Commands.EvaluateInvoked | ObjectValidator/ValidationCommand.cs:22-26 | an item's rule runs exactly when no earlier item for its path failed; rules run in registration order |
| Commands.EvaluateErrors | ObjectValidator/ValidationCommand.cs:22-34 | the k-th error is the error of the k-th first failure |
| Commands.EvaluateCounts | ObjectValidator/ValidationCommand.cs:27-31 | each reported error adds one new path to the skip set |
| Commands.OneFirstFailurePerPath | ObjectValidator/ValidationCommand.cs:24-30 | the first failures have pairwise different paths |
| Commands.ErrorCountBound | ObjectValidator/ValidationCommand.cs:18-35 | at most one error per registered path, and no more paths than items |
| Commands.NoErrorsIffNoFailure | ObjectValidator/ValidationCommand.cs:18-35 | the result is empty if and only if no registered rule fails |
| Commands.FailureSkipsLaterRules | ObjectValidator/ValidationCommand.cs:24-30 | after an item for a path fails, no later rule for that path is invoked |
| Commands.LaterFailureReported | ObjectValidator/ValidationCommand.cs:22-31 | a rule that fails after all earlier rules for its path passed has its error in the result |
| Commands.OutcomeOfOne | ObjectValidator/ValidationCommand.cs:18-35 | with one rule, the result is its error or nothing |
| Commands.OutcomeOfTwo | ObjectValidator/ValidationCommand.cs:18-35 | with two rules, the second is run and reported unless the first failed on the same path |
| Commands.KeyedByPathAppended | ObjectValidator/ValidationCommand.cs:13-16 | appending a rule that reports under its own path keeps every rule reporting under its own path |
| Commands.ErrorPathsDistinct | ObjectValidator/ValidationCommand.cs:18-35 | when rules report under their own path, the returned errors name pairwise different paths |
| Commands.EvaluateExtend | ObjectValidator/ValidationCommand.cs:13-22 | rules registered later do not change what the earlier ones produce |
| Commands.ValidationCommand.constructor | ObjectValidator/ValidationCommand.cs:9 | a new command has no items |
| Commands.ValidationCommand.AddAsync | ObjectValidator/ValidationCommand.cs:13-16 | appends exactly one item (path, rule) at the end; the rule is not run |
| Commands.ValidationCommand.Add | ObjectValidator/ValidationCommand.cs:11 | appends one item whose task is already completed with the synchronous rule's result |
| Commands.ValidationCommand.Validate | ObjectValidator/ValidationCommand.cs:18-35 | returns Evaluate over all items: the first failures' errors in order; runs exactly the rules with no earlier failure on their path |
| Validators.Validator.Validate | ObjectValidator/Validator.cs:28 | returns the shared command's result: at most one error per path, and empty if and only if no rule fails |
| Validators.ValidatorOf | ObjectValidator/Validator.cs:33 | the root validator has the object, an empty prefix and a fresh empty command |
| Properties.PropertyValidator.Object | ObjectValidator/PropertyValidator.cs:40 | no contract of its own: the validator's object; see `ForBinding` |
| Properties.PropertyValidator.Value | ObjectValidator/PropertyValidator.cs:36 | no contract of its own: the accessor applied to the object; see `ForBinding` |
| Properties.PropertyValidator.DisplayName | ObjectValidator/PropertyValidator.cs:38 | no contract of its own: the override or the short name; see `ForBinding` and `DisplayNameInRecord` |
| Properties.PropertyValidator.PropertyName | ObjectValidator/PropertyValidator.cs:44 | no contract of its own: prefix followed by short name; see `ForBinding`, `NestedPropertyName` and `ElementPathsDistinct` |
| Properties.PropertyValidator.Command | ObjectValidator/PropertyValidator.cs:46 | no contract of its own: the validator's command; see `ForBinding` |
| Properties.For | ObjectValidator/Validator.cs:35-37 | no contract of its own: binds a property and registers nothing; `ForBinding` states the binding it yields |
| Properties.ForBinding | ObjectValidator/PropertyValidator.cs:29-46 | a new binding reads the validator's object through the accessor, shares its command, has path prefix + short name, and shows the override or else the short name |
| Properties.NestedValidator | ObjectValidator/PropertyValidator.cs:51-52 | no contract of its own: the validator of the property's value on the same command with prefix `path.`; `NestedPropertyName` states the paths it yields |
| Properties.ElementPrefix | ObjectValidator/PropertyValidator.cs:60 | no contract of its own: `path[i].`; `ElementPathsDistinct` states that it ends in '.' and that different indices give different paths |
| Properties.NestedValidators | ObjectValidator/PropertyValidator.cs:54-61 | no validators for an absent list, else one per element, on the element, the shared command and prefix `path[i].` |
| Properties.Message | ObjectValidator/PropertyValidator.cs:137-138 | the custom message when given, else the default |
| Properties.CreateErrorInfo | ObjectValidator/PropertyValidator.cs:111-121 | the record names the binding's path, its display name and the message's code |
| Properties.IsWhiteSpace | ObjectValidator/PropertyValidator.cs:69 | no contract of its own: the characters `Char.IsWhiteSpace` accepts; `NotEmptyCheck` fails on a text made only of them |
| Properties.LengthOf | ObjectValidator/PropertyValidator.cs:101 | no contract of its own: the text's length, 0 when absent; `LengthCheck` fails exactly when it is out of range |
| Properties.ComparisonConverter | ObjectValidator/PropertyValidator.cs:95 | no contract of its own: fills `{ComparisonValue}`; `RenderComparison` and `RenderComparisonRescan` state its effect |
| Properties.LengthConverter | ObjectValidator/PropertyValidator.cs:104-107 | no contract of its own: fills MaxLength, MinLength, TotalLength in that order; `RenderLength` states its effect |
| Properties.NotEmptyCheck | ObjectValidator/PropertyValidator.cs:63-81 | fails if and only if a string is blank, a list is empty, or another value equals its type's default; the error names the path and the code |
| Properties.NotNullCheck | ObjectValidator/PropertyValidator.cs:83-89 | fails if and only if the value is absent; the error names the path and the code |
| Properties.NotEqualCheck | ObjectValidator/PropertyValidator.cs:91-96 | fails if and only if the value equals the comparison value; the error names the path and the code |
| Properties.LengthCheck | ObjectValidator/PropertyValidator.cs:98-109 | fails if and only if the length (0 when absent) is below the minimum or above the maximum; the error names the path and the code |
| Properties.AddAsync | ObjectValidator/PropertyValidator.cs:123-128 | appends one rule under the binding's path whose result is the rule applied to the binding; returns the binding |
| Properties.Add | ObjectValidator/PropertyValidator.cs:130-135 | appends one rule under the binding's path whose result is the rule applied to the binding; returns the binding |
| Properties.NotEmpty | ObjectValidator/PropertyValidator.cs:63-81 | appends the NotEmpty check under the binding's path; keeps every rule reporting under its own path |
| Properties.NotNull | ObjectValidator/PropertyValidator.cs:83-89 | appends the NotNull check under the binding's path; keeps every rule reporting under its own path |
| Properties.NotEqual | ObjectValidator/PropertyValidator.cs:91-96 | appends the NotEqual check under the binding's path; keeps every rule reporting under its own path |
| Properties.Length | ObjectValidator/PropertyValidator.cs:98-109 | appends the Length check under the binding's path; keeps every rule reporting under its own path |
| Properties.NestedPropertyName | ObjectValidator/PropertyValidator.cs:51-52 | a property bound through a nested validator has path `parent.short`, the parent's command and the parent's value as object |
| Properties.ElementPathsDistinct | ObjectValidator/PropertyValidator.cs:59-60 | element prefixes end in '.', and properties of two different elements never share a path |
| Properties.ElementValidatorsDistinct | ObjectValidator/PropertyValidator.cs:54-61 | rules added through two different element validators register under different paths |
| Properties.DisplayNameInRecord | ObjectValidator/PropertyValidator.cs:111-121 | the record's display name is the override if given, else the short name; its path is prefix + short name |
| Properties.ConverterAfterSubstitution | ObjectValidator/PropertyValidator.cs:114-119 | a converter sees the text in which `{PropertyName}` is already filled |
| Properties.PlainMessageUnchanged | ObjectValidator/PropertyValidator.cs:114-119 | a template without `{PropertyName}` and no converter is returned unchanged |
| Properties.TemplateRendered | ObjectValidator/PropertyValidator.cs:114 | in a well-formed template, the `{PropertyName}` holes become the display name |
| Properties.RenderAroundName | ObjectValidator/PropertyValidator.cs:114 | `before{PropertyName}after` renders as before, display name, after |
| Properties.NotEmptyTemplateRendered | ObjectValidator/PropertyValidator.cs:79 | the default NotEmpty message is `'<display name>' should not be empty.` |
| Properties.NotEmptyRecord | ObjectValidator/PropertyValidator.cs:63-81 | a failing NotEmpty with the default message returns the full record: path, display name, notempty_error, rendered text |
| Properties.NotNullTemplateRendered | ObjectValidator/PropertyValidator.cs:87 | the default NotNull message is `'<display name>' must not be empty.` |
| Properties.NotNullRecord | ObjectValidator/PropertyValidator.cs:83-89 | a failing NotNull with the default message returns the full record with notnull_error |
| Properties.RenderComparison | ObjectValidator/PropertyValidator.cs:93-95 | a two-hole template renders the display name, then the comparison value, in their places |
| Properties.NotEqualTemplateRendered | ObjectValidator/PropertyValidator.cs:94-95 | the default NotEqual message is `'<display name>' should not be equal to '<value>'.` |
| Properties.NotEqualRecord | ObjectValidator/PropertyValidator.cs:91-96 | a failing NotEqual with the default message returns the full record with notequal_error |
| Properties.RenderComparisonRescan | ObjectValidator/PropertyValidator.cs:94-95 | a display name that spells `{ComparisonValue}` is replaced by the comparison value too |
| Properties.DisplayNameRescanned | ObjectValidator/PropertyValidator.cs:91-96 | a failing NotEqual whose display name spells `{ComparisonValue}` shows the comparison value twice |
| Properties.RenderLength | ObjectValidator/PropertyValidator.cs:103-107 | the four-hole Length template renders name, minimum, maximum and length in their places, although the pairs fill MaxLength first |
| Properties.LengthTemplateRendered | ObjectValidator/PropertyValidator.cs:103-107 | the default Length message is `'<name>' must be between <min> and <max> characters. You entered <n> characters.` |
| Properties.LengthRecord | ObjectValidator/PropertyValidator.cs:98-109 | a failing Length with the default message returns the full record with length_error and the measured length |
| Scenarios.CommandWithOneRule | ObjectValidator.Tests/Tests.cs:17-33 | a rule added directly to a command reports its one error |
| Scenarios.SubjectNotEmpty | ObjectValidator.Tests/Tests.cs:55-64 | NotEmpty on an unset subject returns exactly one record: Subject, Subject, notempty_error, `'Subject' should not be empty.` |
| Scenarios.SubjectWithDisplayName | ObjectValidator.Tests/Tests.cs:163-174 | a display name shows in the message and the display field; the path stays Subject |
| Scenarios.NotEmptyInt | ObjectValidator.Tests/Tests.cs:67-76 | NotEmpty on a zero int returns exactly one record: Int2, Int2, notempty_error, `'Int2' should not be empty.` |
| Scenarios.NotEmptyNullableInt | ObjectValidator.Tests/Tests.cs:79-88 | NotEmpty on an absent nullable int returns exactly the NullableInt1 record with `'NullableInt1' should not be empty.` |
| Scenarios.NotEmptyList | ObjectValidator.Tests/Tests.cs:91-100 | NotEmpty on an empty list returns exactly the List1 record with `'List1' should not be empty.` |
| Scenarios.NotEmptyNullList | ObjectValidator.Tests/Tests.cs:103-112 | NotEmpty on an absent list returns exactly the List1 record with `'List1' should not be empty.` |
| Scenarios.NotEmptyOnFilledEntity | ObjectValidator/PropertyValidator.cs:63-81 | NotEmpty passes on a non-zero int, a nullable int holding 0 and a non-empty list |
| Scenarios.NestedObject | ObjectValidator.Tests/Tests.cs:115-127 | a rule on a nested object's property is reported by the root under `Person.FirstName` |
| Scenarios.NestedCollection | ObjectValidator.Tests/Tests.cs:130-149 | rules on each element are reported in element order under `Attachments[0].FileName` and `Attachments[1].FileName` |
| Scenarios.NullableIntNotNull | ObjectValidator.Tests/Tests.cs:177-188 | NotNull on an absent nullable int returns the notnull_error record |
| Scenarios.PersonNotNull | ObjectValidator.Tests/Tests.cs:191-202 | NotNull on an absent object property returns the notnull_error record |
| Scenarios.Int2NotEqual | ObjectValidator.Tests/Tests.cs:205-216 | NotEqual(7) on 7 returns `'Int2' should not be equal to '7'.` |
| Scenarios.SubjectLength | ObjectValidator.Tests/Tests.cs:219-230 | Length(3, 5) on an 8-character subject returns the length_error record with the rendered bounds and length |
| Scenarios.CustomRule | ObjectValidator.Tests/Tests.cs:233-246 | a custom rule built with CreateErrorInfo reports its message's code and text |
| Scenarios.NamedArgsRendered | ObjectValidator.Tests/Tests.cs:266-282 | a converter that fills two named placeholders puts each value in its hole |
| Scenarios.CustomRuleWithNamedArgs | ObjectValidator.Tests/Tests.cs:266-282 | a custom converter fills `{Subject}` and `{Body}` from the object: `Test message 'Subject1', 'Body1'.` |
| Scenarios.FirstErrorWins | ObjectValidator/ValidationCommand.cs:24-31 | NotEmpty then Length on an unset subject: only the first rule runs and only its error is returned |
| Scenarios.SecondRuleRunsAfterPass | ObjectValidator/ValidationCommand.cs:22-31 | NotEmpty then Length(3, 5) on a long, non-blank subject: both rules run and Length reports |
| Scenarios.ValidateTwice | ObjectValidator/ValidationCommand.cs:18-35 | validating twice returns the same errors |

## Left out

- Asynchrony: a task is modelled as already completed. The command awaits
  one rule at a time, so nothing interleaves.
- Reflection: the short property name (PropertyValidator.cs:42) and the
  error code (PropertyValidator.cs:118) come from expression trees and
  member names. Here both are explicit strings: `shortPropertyName` on the
  binding and `code` on `MessageTemplate`.
- Resource lookup and cultures: the FluentValidation message resources are
  not part of this model. The built-in templates are the en-US texts as
  constants. The custom resources of the library's tests (`TestMessage2`,
  `TestMessage3`) are rebuilt from the messages those tests expect.
- Composite formatting: `string.Format` is not modelled, and neither is
  the test that uses it (Tests.cs:249-263). Integers render in plain
  decimal, with no culture-specific formatting.
- `ToString` of lists and objects renders as a fixed type-name text.
- Generic typing: values are one untyped `Value`. `default(TProperty)` is
  the explicit `typeDefault` of the binding.
- Exceptions: a rule, a message provider or a property accessor that
  throws is not modelled. The same goes for a null converter result.
- Evaluation time: the object graph is an immutable value. Changing the
  object between binding and `Validate` is not modelled.
- Laziness: `Validators` is a lazy `Select`. The model builds the sequence
  eagerly, which yields the same validators.
- Equality: NotEqual and NotEmpty compare values structurally. For
  reference types without an `Equals` override, .NET compares identity.
- Lengths count `char`s of the model string. UTF-16 surrogate pairs are
  not distinguished.
- Properties.NestedValidators: requires the property to be absent or a
  list. A string property used as a collection of characters is not
  modelled.
- Properties.NotEqualRecord: proved only for a display name without '{'.
  Otherwise the rendered name can be rewritten (see
  Properties.DisplayNameRescanned).
- Properties.NotEqualTemplateRendered: proved only for a display name
  without '{', for the same reason.
- Properties.RenderComparison: proved only for a display name without '{',
  for the same reason.
- Properties.LengthRecord: proved only for a display name without '{',
  for the same reason.
- Properties.LengthTemplateRendered: proved only for a display name
  without '{', for the same reason.
- Properties.RenderLength: proved only for a display name without '{',
  for the same reason.
- Properties.NotEmptyRecord, Properties.NotNullRecord,
  Properties.NotEqualRecord, Properties.LengthRecord: state the full record
  for the default message only. With a custom message, the check functions
  still state the failure condition, the path and the code.
