/** Concrete validation outcomes, worked through the model. */
module Scenarios {
  import opened Wrappers
  import opened Validation

  /** A policy naming entity type `User` where the schema has `Useer`: one error, so validation fails. */
  lemma UnrecognizedUserFails(id: PolicyID, typeErrorMessage: TypeErrorKind -> string)
    ensures
      var kind := ValidationErrorKind.NewUnrecognizedEntityType("User", Some("Useer"));
      var r := ValidationResult.New([ValidationError.WithPolicyId(id, None, kind)], []);
      && !r.ValidationPassed()
      && |r.ValidationErrors()| == 1 && r.ValidationWarnings() == []
      && r.ValidationErrors()[0].ErrorKind().Message(typeErrorMessage)
         == "unrecognized entity type `User`" + ", did you mean `Useer`?"
  {
  }

  /** A mixed-script string literal gives one warning and no error, so validation passes. */
  lemma MixedScriptStringPasses(id: PolicyID, span: Option<SourceInfo>, typeWarningMessage: TypeWarningKind -> string)
    ensures
      var w := ValidationWarning.WithPolicyId(id, span, MixedScriptString("pаypal"));
      var r := ValidationResult.New([], [w]);
      && r.ValidationPassed()
      && r.ValidationWarnings() == [w]
      && w.Kind().Message(typeWarningMessage) == "string `\"pаypal\"`" + " contains mixed scripts"
  {
    assert "string `\"" + "pаypal" + "\"` contains mixed scripts" == "string `\"pаypal\"`" + " contains mixed scripts";
  }

  /** Without a suggestion there is no trailing clause. */
  lemma UnrecognizedWidgetWithoutSuggestion()
    ensures UnrecognizedEntityType.UnrecognizedEntityType("Widget", None).Message()
         == "unrecognized entity type `Widget`"
  {
  }
}
