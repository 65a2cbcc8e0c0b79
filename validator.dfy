/**
 * The validation-message builder: every field error reported by the struct
 * validator becomes one sentence, and the sentences are joined with ", ".
 * Reflection over struct tags is not modelled; the validator's verdict is
 * given as the list of (tag, field) errors, in field order.
 */
module Validator {
  import Text

  const RequiredTag := "required"
  const Separator := ", "

  /** One failed rule: the rule's tag and the field's json name. */
  datatype FieldError = FieldError(tag: string, field: string)

  function RequiredMessage(field: string): string
  {
    "field " + field + " is a required"
  }

  function InvalidMessage(field: string): string
  {
    "field " + field + " is not valid"
  }

  /** The sentence reported for one failed rule. */
  function Message(e: FieldError): string
  {
    if e.tag == RequiredTag then RequiredMessage(e.field) else InvalidMessage(e.field)
  }

  function Messages(errs: seq<FieldError>): seq<string>
  {
    seq(|errs|, i requires 0 <= i < |errs| => Message(errs[i]))
  }

  /** The message `Validate` returns for the given errors. */
  function ValidationMessage(errs: seq<FieldError>): string
  {
    Text.Join(Messages(errs), Separator)
  }

  /** Builds `errMsgs` one error at a time, then joins it. */
  method Validate(errs: seq<FieldError>) returns (msg: string)
    ensures msg == ValidationMessage(errs)
    ensures msg == "" <==> errs == []
  {
    var errMsgs: seq<string> := [];
    for i := 0 to |errs|
      invariant |errMsgs| == i
      invariant forall j :: 0 <= j < i ==> errMsgs[j] == Message(errs[j])
    {
      if errs[i].tag == RequiredTag {
        errMsgs := errMsgs + ["field " + errs[i].field + " is a required"];
      } else {
        errMsgs := errMsgs + ["field " + errs[i].field + " is not valid"];
      }
    }
    assert errMsgs == Messages(errs);
    msg := Text.Join(errMsgs, Separator);
    if errs != [] {
      assert |Message(errs[0])| > 0;
    }
  }

  /** The messages of two error lists appear in order, separated by ", ". */
  lemma ValidationMessageConcat(a: seq<FieldError>, b: seq<FieldError>)
    requires a != [] && b != []
    ensures ValidationMessage(a + b) == ValidationMessage(a) + Separator + ValidationMessage(b)
  {
    assert Messages(a + b) == Messages(a) + Messages(b);
    Text.JoinConcat(Messages(a), Messages(b), Separator);
  }

  /** A single error is reported as its own sentence, without separator. */
  lemma ValidationMessageSingle(e: FieldError)
    ensures e.tag == RequiredTag ==> ValidationMessage([e]) == RequiredMessage(e.field)
    ensures e.tag != RequiredTag ==> ValidationMessage([e]) == InvalidMessage(e.field)
  {
    assert Messages([e]) == [Message(e)];
  }
}
