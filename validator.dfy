/**
 * A validator roots rule attachment at one object: it holds the object, the
 * validation command shared by the whole object graph, and the path prefix
 * under which the object's properties are reported.
 */
module Validators {
  import opened Values
  import opened Commands

  /** A path prefix is empty (the root) or ends in '.' (a nested object or element). */
  predicate IsPathPrefix(prefix: string)
  {
    prefix == [] || prefix[|prefix| - 1] == '.'
  }

  /** Immutable once built: the object, the shared command and the path prefix. */
  datatype Validator = Validator(obj: Value, command: ValidationCommand, propertyPrefix: string)
  {
    /**
     * Runs the shared command: every rule registered through this validator,
     * its ancestors and its descendants.
     */
    method Validate() returns (errors: seq<ErrorInfo>)
      ensures errors == Outcome(command.items).errors
      ensures |errors| <= |Paths(command.items)|
      ensures errors == [] <==> forall i :: 0 <= i < |command.items| ==> !Fails(command.items, i)
    {
      var invoked;
      errors, invoked := command.Validate();
      ErrorCountBound(command.items);
      NoErrorsIffNoFailure(command.items);
    }
  }

  /** The root validator of an object: empty prefix and a new, empty command. */
  method ValidatorOf(obj: Value) returns (v: Validator)
    ensures v.obj == obj && v.propertyPrefix == "" && IsPathPrefix(v.propertyPrefix)
    ensures fresh(v.command) && v.command.items == []
  {
    var command := new ValidationCommand();
    v := Validator(obj, command, "");
  }
}
