/**
 * The outcome of validating a set of Cedar policies against a schema: the
 * diagnostics (fatal errors and advisory warnings), the location each one
 * points at, the text each one renders to, and the pass/fail verdict.
 */
module Validation {
  import opened Wrappers
  import opened Strings

  /** The identifier of a policy; its text form is not part of this model. */
  type PolicyID(==)

  /** A span into the policy source, produced by the parser. */
  type SourceInfo(==)

  /** A type checker error; its message belongs to the type checker. */
  type TypeErrorKind(==)

  /** A type checker warning; its message belongs to the type checker. */
  type TypeWarningKind(==)

  // ---------------------------------------------------------------------------
  // Message templates
  // ---------------------------------------------------------------------------

  const UnrecognizedEntityTypePrefix := "unrecognized entity type `"
  const UnrecognizedActionIdPrefix := "unrecognized action `"
  /** Closes the quoted name in both "unrecognized" messages. */
  const NameClose := "`"
  const DidYouMeanPrefix := ", did you mean `"
  const DidYouMeanSuffix := "`?"
  // Written as two literals: the verifier reads characters near the start of
  // one very long literal poorly.
  const InvalidActionApplicationBase := "unable to find an applicable action" + " given the policy head constraints"
  const PrincipalHint := ". Note: Try replacing `==` with `in` in the principal clause"
  const ResourceHint := ". Note: Try replacing `==` with `in` in the resource clause"
  const UnspecifiedEntityPrefix := "unspecified entity with eid `"
  const UnspecifiedEntitySuffix := "`. Unspecified entities cannot be used in policies"

  const StringPrefix := "string `\""
  const IdentifierPrefix := "identifier `"
  const MixedScriptStringSuffix := "\"` contains mixed scripts"
  const BidiCharsInStringSuffix := "\"` contains BIDI control characters"
  const BidiCharsInIdentifierSuffix := "` contains BIDI control characters"
  const MixedScriptIdentifierSuffix := "` contains mixed scripts"
  const ConfusableIdentifierSuffix := "` contains characters that fall outside of the General Security Profile for Identifiers"

  const WarningDisplayPrefix := "validation warning on policy `"
  /** Separates the policy id from the warning kind's message. */
  const WarningDisplaySeparator := "`: "

  /** The optional ", did you mean `s`?" clause of the two "unrecognized" messages. */
  function DidYouMean(suggestion: Option<string>): (clause: string)
    ensures suggestion.None? ==> clause == ""
    ensures suggestion.Some? ==> Between(clause, DidYouMeanPrefix, DidYouMeanSuffix) == suggestion
  {
    match suggestion
    case None => ""
    case Some(s) =>
      BetweenConcat(DidYouMeanPrefix, s, DidYouMeanSuffix);
      DidYouMeanPrefix + s + DidYouMeanSuffix
  }

  // ---------------------------------------------------------------------------
  // Detail structures
  // ---------------------------------------------------------------------------

  /** An entity type named in a policy that the schema does not declare. */
  datatype UnrecognizedEntityType = UnrecognizedEntityType(
    actualEntityType: string,
    suggestedEntityType: Option<string>)
  {
    /** "unrecognized entity type `<actual>`", then the suggestion clause. */
    function Message(): (m: string)
      ensures Between(m, UnrecognizedEntityTypePrefix, NameClose + DidYouMean(suggestedEntityType)) == Some(actualEntityType)
    {
      var m := UnrecognizedEntityTypePrefix + actualEntityType + NameClose + DidYouMean(suggestedEntityType);
      assert m == UnrecognizedEntityTypePrefix + actualEntityType + (NameClose + DidYouMean(suggestedEntityType));
      BetweenConcat(UnrecognizedEntityTypePrefix, actualEntityType, NameClose + DidYouMean(suggestedEntityType));
      m
    }
  }

  /** An action named in a policy that the schema does not declare. */
  datatype UnrecognizedActionId = UnrecognizedActionId(
    actualActionId: string,
    suggestedActionId: Option<string>)
  {
    /** "unrecognized action `<actual>`", then the suggestion clause. */
    function Message(): (m: string)
      ensures Between(m, UnrecognizedActionIdPrefix, NameClose + DidYouMean(suggestedActionId)) == Some(actualActionId)
    {
      var m := UnrecognizedActionIdPrefix + actualActionId + NameClose + DidYouMean(suggestedActionId);
      assert m == UnrecognizedActionIdPrefix + actualActionId + (NameClose + DidYouMean(suggestedActionId));
      BetweenConcat(UnrecognizedActionIdPrefix, actualActionId, NameClose + DidYouMean(suggestedActionId));
      m
    }
  }

  /** No action satisfies the policy head; the flags say whether `in` for `==` would help. */
  datatype InvalidActionApplication = InvalidActionApplication(
    wouldInFixPrincipal: bool,
    wouldInFixResource: bool)
  {
    /** The base text, then the principal hint if set, then the resource hint if set. */
    function Message(): (m: string)
      ensures StartsWith(m, InvalidActionApplicationBase)
      ensures |m| == |InvalidActionApplicationBase|
                     + (if wouldInFixPrincipal then |PrincipalHint| else 0)
                     + (if wouldInFixResource then |ResourceHint| else 0)
      ensures wouldInFixPrincipal ==> StartsWith(m[|InvalidActionApplicationBase|..], PrincipalHint)
      ensures wouldInFixResource ==> EndsWith(m, ResourceHint)
    {
      var principal := if wouldInFixPrincipal then PrincipalHint else "";
      var resource := if wouldInFixResource then ResourceHint else "";
      var m := InvalidActionApplicationBase + principal + resource;
      StartsWithConcat(InvalidActionApplicationBase, principal + resource);
      assert m[|InvalidActionApplicationBase|..] == principal + resource;
      StartsWithConcat(principal, resource);
      EndsWithConcat(InvalidActionApplicationBase + principal, resource);
      m
    }
  }

  /** An entity of unspecified type reached validation. */
  datatype UnspecifiedEntity = UnspecifiedEntity(entityId: string)
  {
    /** "unspecified entity with eid `<id>`. Unspecified entities cannot be used in policies" */
    function Message(): (m: string)
      ensures Between(m, UnspecifiedEntityPrefix, UnspecifiedEntitySuffix) == Some(entityId)
    {
      BetweenConcat(UnspecifiedEntityPrefix, entityId, UnspecifiedEntitySuffix);
      UnspecifiedEntityPrefix + entityId + UnspecifiedEntitySuffix
    }
  }

  // ---------------------------------------------------------------------------
  // Error and warning kinds
  // ---------------------------------------------------------------------------

  datatype ValidationErrorKind =
    | UnrecognizedEntityType(unrecognizedEntityType: UnrecognizedEntityType)
    | UnrecognizedActionId(unrecognizedActionId: UnrecognizedActionId)
    | InvalidActionApplication(invalidActionApplication: InvalidActionApplication)
    | TypeError(typeError: TypeErrorKind)
    | UnspecifiedEntity(unspecifiedEntity: UnspecifiedEntity)
  {
    /** The text of the kind's own template; a type error has none. */
    function TemplateMessage(): (m: string)
      requires !TypeError?
      ensures |m| > 0
    {
      match this
      case UnrecognizedEntityType(d) => d.Message()
      case UnrecognizedActionId(d) => d.Message()
      case InvalidActionApplication(d) => d.Message()
      case UnspecifiedEntity(d) => d.Message()
    }

    /**
     * The kind's message. A type error is rendered, unchanged, by the type
     * checker's own message function, given here as `typeErrorMessage`;
     * every other kind renders through its template.
     */
    function Message(typeErrorMessage: TypeErrorKind -> string): (m: string)
      ensures TypeError? ==> m == typeErrorMessage(typeError)
      ensures !TypeError? ==> m == TemplateMessage()
    {
      if TypeError? then typeErrorMessage(typeError) else TemplateMessage()
    }

    static function NewUnrecognizedEntityType(actual: string, suggested: Option<string>): (k: ValidationErrorKind)
      ensures k.UnrecognizedEntityType?
      ensures k.unrecognizedEntityType.actualEntityType == actual
      ensures k.unrecognizedEntityType.suggestedEntityType == suggested
    {
      ValidationErrorKind.UnrecognizedEntityType(UnrecognizedEntityType.UnrecognizedEntityType(actual, suggested))
    }

    static function NewUnrecognizedActionId(actual: string, suggested: Option<string>): (k: ValidationErrorKind)
      ensures k.UnrecognizedActionId?
      ensures k.unrecognizedActionId.actualActionId == actual
      ensures k.unrecognizedActionId.suggestedActionId == suggested
    {
      ValidationErrorKind.UnrecognizedActionId(UnrecognizedActionId.UnrecognizedActionId(actual, suggested))
    }

    static function NewInvalidActionApplication(wouldInFixPrincipal: bool, wouldInFixResource: bool): (k: ValidationErrorKind)
      ensures k.InvalidActionApplication?
      ensures k.invalidActionApplication.wouldInFixPrincipal == wouldInFixPrincipal
      ensures k.invalidActionApplication.wouldInFixResource == wouldInFixResource
    {
      ValidationErrorKind.InvalidActionApplication(
        InvalidActionApplication.InvalidActionApplication(wouldInFixPrincipal, wouldInFixResource))
    }

    static function NewTypeError(typeError: TypeErrorKind): (k: ValidationErrorKind)
      ensures k.TypeError? && k.typeError == typeError
    {
      ValidationErrorKind.TypeError(typeError)
    }

    static function NewUnspecifiedEntity(entityId: string): (k: ValidationErrorKind)
      ensures k.UnspecifiedEntity? && k.unspecifiedEntity.entityId == entityId
    {
      ValidationErrorKind.UnspecifiedEntity(UnspecifiedEntity.UnspecifiedEntity(entityId))
    }
  }

  datatype ValidationWarningKind =
    | MixedScriptString(text: string)
    | BidiCharsInString(text: string)
    | BidiCharsInIdentifier(text: string)
    | MixedScriptIdentifier(text: string)
    | ConfusableIdentifier(text: string)
    | TypeWarning(typeWarning: TypeWarningKind)
  {
    /** Text before the offending string or identifier in this kind's template. */
    function TemplatePrefix(): string
      requires !TypeWarning?
    {
      if MixedScriptString? || BidiCharsInString? then StringPrefix else IdentifierPrefix
    }

    /** Text after the offending string or identifier in this kind's template. */
    function TemplateSuffix(): string
      requires !TypeWarning?
    {
      match this
      case MixedScriptString(_) => MixedScriptStringSuffix
      case BidiCharsInString(_) => BidiCharsInStringSuffix
      case BidiCharsInIdentifier(_) => BidiCharsInIdentifierSuffix
      case MixedScriptIdentifier(_) => MixedScriptIdentifierSuffix
      case ConfusableIdentifier(_) => ConfusableIdentifierSuffix
    }

    /**
     * The kind's message. A type warning is rendered by the type checker's
     * own message function; the other kinds quote the offending text inside
     * their template.
     */
    function Message(typeWarningMessage: TypeWarningKind -> string): (m: string)
      ensures TypeWarning? ==> m == typeWarningMessage(typeWarning)
      ensures !TypeWarning? ==> Between(m, TemplatePrefix(), TemplateSuffix()) == Some(text)
    {
      match this
      case TypeWarning(t) => typeWarningMessage(t)
      case _ =>
        BetweenConcat(TemplatePrefix(), text, TemplateSuffix());
        TemplatePrefix() + text + TemplateSuffix()
    }
  }

  // ---------------------------------------------------------------------------
  // Locations and diagnostics
  // ---------------------------------------------------------------------------

  /** A policy and, optionally, the span inside it that a diagnostic points at. */
  datatype SourceLocation = SourceLocation(policyId: PolicyID, sourceInfo: Option<SourceInfo>)
  {
    static function New(policyId: PolicyID, sourceInfo: Option<SourceInfo>): (l: SourceLocation)
      ensures l.PolicyId() == policyId
      ensures l.SourceInfo() == sourceInfo
      ensures l.IntoSourceInfo() == sourceInfo
    {
      SourceLocation(policyId, sourceInfo)
    }

    /** The policy this location is in: the one it was built with. */
    function PolicyId(): (id: PolicyID)
      ensures SourceLocation(id, sourceInfo) == this
    {
      policyId
    }

    /** The span this location points at, if any: the one it was built with. */
    function SourceInfo(): (si: Option<SourceInfo>)
      ensures SourceLocation(policyId, si) == this
    {
      sourceInfo
    }

    /** The consuming form of `SourceInfo`: it gives back the same span. */
    function IntoSourceInfo(): (s: Option<SourceInfo>)
      ensures s == SourceInfo()
    {
      sourceInfo
    }
  }

  /** A fatal diagnostic: where it was found and what it is. */
  datatype ValidationError = ValidationError(location: SourceLocation, errorKind: ValidationErrorKind)
  {
    static function WithPolicyId(id: PolicyID, sourceInfo: Option<SourceInfo>, errorKind: ValidationErrorKind): (e: ValidationError)
      ensures e.Location() == SourceLocation.New(id, sourceInfo)
      ensures e.Location().PolicyId() == id && e.Location().SourceInfo() == sourceInfo
      ensures e.ErrorKind() == errorKind
      ensures e.IntoLocationAndErrorKind() == (SourceLocation.New(id, sourceInfo), errorKind)
    {
      ValidationError(SourceLocation.New(id, sourceInfo), errorKind)
    }

    /** The consuming decomposition; it agrees with `Location` and `ErrorKind`. */
    function IntoLocationAndErrorKind(): (parts: (SourceLocation, ValidationErrorKind))
      ensures parts.0 == Location() && parts.1 == ErrorKind()
    {
      (location, errorKind)
    }

    /** What the error is: the kind it was built with. */
    function ErrorKind(): (k: ValidationErrorKind)
      ensures ValidationError(location, k) == this
    {
      errorKind
    }

    /** Where the error is: its policy id and span. */
    function Location(): (l: SourceLocation)
      ensures ValidationError(l, errorKind) == this
    {
      location
    }
  }

  /** An advisory diagnostic: where it was found and what it is. */
  datatype ValidationWarning = ValidationWarning(location: SourceLocation, kind: ValidationWarningKind)
  {
    static function WithPolicyId(id: PolicyID, sourceInfo: Option<SourceInfo>, kind: ValidationWarningKind): (w: ValidationWarning)
      ensures w.Location() == SourceLocation.New(id, sourceInfo)
      ensures w.Location().PolicyId() == id && w.Location().SourceInfo() == sourceInfo
      ensures w.Kind() == kind
      ensures w.ToKindAndLocation() == (SourceLocation.New(id, sourceInfo), kind)
    {
      ValidationWarning(SourceLocation.New(id, sourceInfo), kind)
    }

    /** Where the warning is: its policy id and span. */
    function Location(): (l: SourceLocation)
      ensures ValidationWarning(l, kind) == this
    {
      location
    }

    /** What the warning is: the kind it was built with. */
    function Kind(): (k: ValidationWarningKind)
      ensures ValidationWarning(location, k) == this
    {
      kind
    }

    /** The consuming decomposition; despite its name the location comes first. */
    function ToKindAndLocation(): (parts: (SourceLocation, ValidationWarningKind))
      ensures parts.0 == Location() && parts.1 == Kind()
    {
      (location, kind)
    }

    /**
     * The one-line rendering "validation warning on policy `<id>`: <message>",
     * with the policy id and the type checker's warnings rendered by the
     * given functions. The source span is not part of it.
     */
    function Display(policyIdText: PolicyID -> string, typeWarningMessage: TypeWarningKind -> string): (s: string)
      ensures StartsWith(s, WarningDisplayPrefix + policyIdText(location.PolicyId()) + WarningDisplaySeparator)
      ensures EndsWith(s, kind.Message(typeWarningMessage))
      ensures Between(s, WarningDisplayPrefix, WarningDisplaySeparator + kind.Message(typeWarningMessage))
              == Some(policyIdText(location.PolicyId()))
    {
      var id := policyIdText(location.PolicyId());
      var message := kind.Message(typeWarningMessage);
      var head := WarningDisplayPrefix + id + WarningDisplaySeparator;
      StartsWithConcat(head, message);
      EndsWithConcat(head, message);
      assert head + message == WarningDisplayPrefix + id + (WarningDisplaySeparator + message);
      BetweenConcat(WarningDisplayPrefix, id, WarningDisplaySeparator + message);
      head + message
    }
  }

  // ---------------------------------------------------------------------------
  // The result of one validation run
  // ---------------------------------------------------------------------------

  /** All errors and warnings of one run, in the order the checkers produced them. */
  datatype ValidationResult = ValidationResult(
    validationErrors: seq<ValidationError>,
    validationWarnings: seq<ValidationWarning>)
  {
    static function New(errors: seq<ValidationError>, warnings: seq<ValidationWarning>): (r: ValidationResult)
      ensures r.ValidationErrors() == errors
      ensures r.ValidationWarnings() == warnings
      ensures r.ValidationPassed() <==> errors == []
    {
      ValidationResult(errors, warnings)
    }

    /** Validation passes exactly when there is no error; warnings play no part. */
    function ValidationPassed(): (passed: bool)
      ensures passed <==> ValidationErrors() == []
      ensures passed <==> forall e :: e !in ValidationErrors()
    {
      assert |validationErrors| > 0 ==> validationErrors[0] in validationErrors;
      |validationErrors| == 0
    }

    /** The errors, in the order they were given to `New`. */
    function ValidationErrors(): (errors: seq<ValidationError>)
      ensures ValidationResult(errors, validationWarnings) == this
    {
      validationErrors
    }

    /** The warnings, in the order they were given to `New`. */
    function ValidationWarnings(): (warnings: seq<ValidationWarning>)
      ensures ValidationResult(validationErrors, warnings) == this
    {
      validationWarnings
    }

    /** The consuming decomposition; rebuilding from it gives the same result. */
    function IntoErrorsAndWarnings(): (parts: (seq<ValidationError>, seq<ValidationWarning>))
      ensures parts == (ValidationErrors(), ValidationWarnings())
      ensures New(parts.0, parts.1) == this
    {
      (validationErrors, validationWarnings)
    }
  }

  lemma WarningsNeverAffectVerdict(errors: seq<ValidationError>, w1: seq<ValidationWarning>, w2: seq<ValidationWarning>)
    ensures ValidationResult.New(errors, w1).ValidationPassed() == ValidationResult.New(errors, w2).ValidationPassed()
  {
  }

  lemma OnlyWarningsPasses(warnings: seq<ValidationWarning>)
    ensures ValidationResult.New([], warnings).ValidationPassed()
  {
  }

  lemma ResultRoundTrip(errors: seq<ValidationError>, warnings: seq<ValidationWarning>)
    ensures ValidationResult.New(errors, warnings).IntoErrorsAndWarnings() == (errors, warnings)
  {
  }
}
