/**
 * Reading rendered diagnostics back. Each parser here is the inverse of one
 * message template of `Validation`; the round-trip lemmas show that a message
 * determines the diagnostic it was rendered from, and the "iff" lemmas show
 * that each optional clause appears exactly when its field says so.
 */
module MessageParsing {
  import opened Wrappers
  import opened Strings
  import opened Validation

  // ---------------------------------------------------------------------------
  // "unrecognized entity type `A`[, did you mean `S`?]" and its action twin
  // ---------------------------------------------------------------------------

  /**
   * Reads `prefix + name + "`" + DidYouMean(suggestion)`, taking the name to
   * end at the first backtick after the prefix.
   */
  function ParseNamed(prefix: string, m: string): (r: Option<(string, Option<string>)>)
    ensures r.Some? ==> '`' !in r.value.0
    ensures r.Some? ==> m == prefix + r.value.0 + NameClose + DidYouMean(r.value.1)
  {
    if !StartsWith(m, prefix) then None
    else
      assert m == prefix + m[|prefix|..];
      var split := SplitAtFirst(m[|prefix|..], '`');
      if split.None? then None
      else
        var (name, tail) := split.value;
        assert m == prefix + name + NameClose + tail;
        if tail == [] then Some((name, None))
        else
          var s := Between(tail, DidYouMeanPrefix, DidYouMeanSuffix);
          if s.Some? then
            assert DidYouMean(Some(s.value)) == tail;
            Some((name, Some(s.value)))
          else None
  }

  lemma ParseNamedRoundTrip(prefix: string, name: string, suggestion: Option<string>)
    requires '`' !in name
    ensures ParseNamed(prefix, prefix + name + NameClose + DidYouMean(suggestion)) == Some((name, suggestion))
  {
    var clause := DidYouMean(suggestion);
    var rest := name + NameClose + clause;
    var m := prefix + name + NameClose + clause;
    assert m == prefix + rest;
    StartsWithConcat(prefix, rest);
    assert m[|prefix|..] == rest;
    SplitAtFirstConcat(name, '`', clause);
    if suggestion.Some? {
      assert |clause| > 0;
    }
  }

  /** The suggestion clause is there exactly when a suggestion is. */
  lemma {:induction false} NamedSuggestionIff(prefix: string, name: string, suggestion: Option<string>)
    ensures StartsWith(prefix + name + NameClose + DidYouMean(suggestion), prefix + name + NameClose)
    ensures EndsWith(prefix + name + NameClose + DidYouMean(suggestion), DidYouMeanSuffix) <==> suggestion.Some?
  {
    var head := prefix + name + NameClose;
    var m := head + DidYouMean(suggestion);
    StartsWithConcat(head, DidYouMean(suggestion));
    if suggestion.Some? {
      EndsWithConcat(head + DidYouMeanPrefix + suggestion.value, DidYouMeanSuffix);
    } else {
      EndsWithConcat(prefix + name, NameClose);
      NotEndsWithAt(m, NameClose, DidYouMeanSuffix, 0);  // last character: '`' vs '?'
    }
  }

  lemma UnrecognizedEntityTypeSuggestionIff(d: UnrecognizedEntityType)
    ensures StartsWith(d.Message(), UnrecognizedEntityTypePrefix + d.actualEntityType + NameClose)
    ensures EndsWith(d.Message(), DidYouMeanSuffix) <==> d.suggestedEntityType.Some?
    ensures d.suggestedEntityType.None? ==> d.Message() == UnrecognizedEntityTypePrefix + d.actualEntityType + NameClose
    ensures d.suggestedEntityType.Some? ==>
      d.Message() == UnrecognizedEntityTypePrefix + d.actualEntityType + NameClose + DidYouMeanPrefix + d.suggestedEntityType.value + DidYouMeanSuffix
  {
    NamedSuggestionIff(UnrecognizedEntityTypePrefix, d.actualEntityType, d.suggestedEntityType);
  }

  lemma UnrecognizedActionIdSuggestionIff(d: UnrecognizedActionId)
    ensures StartsWith(d.Message(), UnrecognizedActionIdPrefix + d.actualActionId + NameClose)
    ensures EndsWith(d.Message(), DidYouMeanSuffix) <==> d.suggestedActionId.Some?
    ensures d.suggestedActionId.None? ==> d.Message() == UnrecognizedActionIdPrefix + d.actualActionId + NameClose
    ensures d.suggestedActionId.Some? ==>
      d.Message() == UnrecognizedActionIdPrefix + d.actualActionId + NameClose + DidYouMeanPrefix + d.suggestedActionId.value + DidYouMeanSuffix
  {
    NamedSuggestionIff(UnrecognizedActionIdPrefix, d.actualActionId, d.suggestedActionId);
  }

  /**
   * Without the no-backtick condition a message can stand for two different
   * errors: the words ", did you mean `" may belong to the name or to the clause.
   */
  lemma BacktickInNameIsAmbiguous(a: string, b: string, c: string)
    ensures
      var d1 := UnrecognizedEntityType.UnrecognizedEntityType(a + NameClose + DidYouMeanPrefix + b, Some(c));
      var d2 := UnrecognizedEntityType.UnrecognizedEntityType(a, Some(b + NameClose + DidYouMeanPrefix + c));
      d1 != d2 && d1.Message() == d2.Message()
  {
    var n := a + NameClose + DidYouMeanPrefix + b;
    assert |n| > |a|;
  }

  // ---------------------------------------------------------------------------
  // "unable to find an applicable action ..." with its two optional hints
  // ---------------------------------------------------------------------------

  /** Reads the two flags off the hints, and accepts only if they render back to `m`. */
  function ParseInvalidActionApplication(m: string): (r: Option<InvalidActionApplication>)
    ensures r.Some? ==> r.value.Message() == m
  {
    if !StartsWith(m, InvalidActionApplicationBase) then None
    else
      var d := InvalidActionApplication.InvalidActionApplication(
        StartsWith(m[|InvalidActionApplicationBase|..], PrincipalHint),
        EndsWith(m, ResourceHint));
      if d.Message() == m then Some(d) else None
  }

  lemma ParseInvalidActionApplicationRoundTrip(d: InvalidActionApplication)
    ensures ParseInvalidActionApplication(d.Message()) == Some(d)
  {
    PrincipalHintIff(d);
    ResourceHintIff(d);
  }

  /** The principal hint follows the base text exactly when the principal flag is set. */
  lemma PrincipalHintIff(d: InvalidActionApplication)
    ensures StartsWith(d.Message(), InvalidActionApplicationBase)
    ensures StartsWith(d.Message()[|InvalidActionApplicationBase|..], PrincipalHint) <==> d.wouldInFixPrincipal
  {
    var rest := (if d.wouldInFixPrincipal then PrincipalHint else "")
      + (if d.wouldInFixResource then ResourceHint else "");
    StartsWithConcat(InvalidActionApplicationBase, rest);
    assert d.Message()[|InvalidActionApplicationBase|..] == rest;
    if d.wouldInFixPrincipal {
      StartsWithConcat(PrincipalHint, if d.wouldInFixResource then ResourceHint else "");
    } else if d.wouldInFixResource {
      StartsWithConcat(ResourceHint, "");
      NotStartsWithAt(rest, ResourceHint, PrincipalHint, 44);  // 'r' of "resource" vs 'p' of "principal"
    }
  }

  /** The message ends with the resource hint exactly when the resource flag is set. */
  lemma ResourceHintIff(d: InvalidActionApplication)
    ensures EndsWith(d.Message(), ResourceHint) <==> d.wouldInFixResource
  {
    var m := d.Message();
    var head := InvalidActionApplicationBase + (if d.wouldInFixPrincipal then PrincipalHint else "");
    if d.wouldInFixResource {
      EndsWithConcat(head, ResourceHint);
    } else if d.wouldInFixPrincipal {
      EndsWithConcat(InvalidActionApplicationBase, PrincipalHint);
      NotEndsWithAt(m, PrincipalHint, ResourceHint, 7);  // 'l' of "principal clause" vs 'e' of "resource clause"
    } else {
      EndsWithConcat("", InvalidActionApplicationBase);
      NotEndsWithAt(m, InvalidActionApplicationBase, ResourceHint, 0);  // last character: 's' of "constraints" vs 'e' of "clause"
    }
  }

  /** With both hints, exactly the principal hint stands between the base text and the resource hint. */
  lemma BothHintsInOrder(d: InvalidActionApplication)
    requires d.wouldInFixPrincipal && d.wouldInFixResource
    ensures Between(d.Message(), InvalidActionApplicationBase, ResourceHint) == Some(PrincipalHint)
  {
    BetweenConcat(InvalidActionApplicationBase, PrincipalHint, ResourceHint);
  }

  // ---------------------------------------------------------------------------
  // Error kinds
  // ---------------------------------------------------------------------------

  /**
   * The kinds whose message is this model's own and can be read back: not a
   * type error, and no backtick inside an unrecognized name.
   */
  predicate HasUnambiguousMessage(k: ValidationErrorKind) {
    match k
    case UnrecognizedEntityType(d) => '`' !in d.actualEntityType
    case UnrecognizedActionId(d) => '`' !in d.actualActionId
    case InvalidActionApplication(_) => true
    case TypeError(_) => false
    case UnspecifiedEntity(_) => true
  }

  function ParseErrorKind(m: string): (r: Option<ValidationErrorKind>)
    ensures r.Some? ==> HasUnambiguousMessage(r.value)
    ensures r.Some? ==> r.value.TemplateMessage() == m
  {
    var entityType := ParseNamed(UnrecognizedEntityTypePrefix, m);
    if entityType.Some? then
      Some(ValidationErrorKind.NewUnrecognizedEntityType(entityType.value.0, entityType.value.1))
    else
      var actionId := ParseNamed(UnrecognizedActionIdPrefix, m);
      if actionId.Some? then
        Some(ValidationErrorKind.NewUnrecognizedActionId(actionId.value.0, actionId.value.1))
      else
        var invalid := ParseInvalidActionApplication(m);
        if invalid.Some? then
          Some(ValidationErrorKind.InvalidActionApplication(invalid.value))
        else
          var entityId := Between(m, UnspecifiedEntityPrefix, UnspecifiedEntitySuffix);
          if entityId.Some? then Some(ValidationErrorKind.NewUnspecifiedEntity(entityId.value))
          else None
  }

  lemma ErrorKindRoundTrip(k: ValidationErrorKind, typeErrorMessage: TypeErrorKind -> string)
    requires HasUnambiguousMessage(k)
    ensures ParseErrorKind(k.Message(typeErrorMessage)) == Some(k)
  {
    var m := k.Message(typeErrorMessage);
    match k
    case UnrecognizedEntityType(d) =>
      ParseNamedRoundTrip(UnrecognizedEntityTypePrefix, d.actualEntityType, d.suggestedEntityType);
    case UnrecognizedActionId(d) =>
      StartsWithConcat(UnrecognizedActionIdPrefix, d.actualActionId + NameClose + DidYouMean(d.suggestedActionId));
      NotStartsWithAt(m, UnrecognizedActionIdPrefix, UnrecognizedEntityTypePrefix, 13);  // 'a' of "action" vs 'e' of "entity"
      ParseNamedRoundTrip(UnrecognizedActionIdPrefix, d.actualActionId, d.suggestedActionId);
    case InvalidActionApplication(d) =>
      PrincipalHintIff(d);
      NotStartsWithAt(m, InvalidActionApplicationBase, UnrecognizedEntityTypePrefix, 2);  // 'a' of "unable" vs 'r' of "unrecognized"
      NotStartsWithAt(m, InvalidActionApplicationBase, UnrecognizedActionIdPrefix, 2);  // 'a' of "unable" vs 'r' of "unrecognized"
      ParseInvalidActionApplicationRoundTrip(d);
    case UnspecifiedEntity(d) =>
      StartsWithConcat(UnspecifiedEntityPrefix, d.entityId + UnspecifiedEntitySuffix);
      NotStartsWithAt(m, UnspecifiedEntityPrefix, UnrecognizedEntityTypePrefix, 2);  // 's' of "unspecified" vs 'r' of "unrecognized"
      NotStartsWithAt(m, UnspecifiedEntityPrefix, UnrecognizedActionIdPrefix, 2);  // 's' of "unspecified" vs 'r' of "unrecognized"
      NotStartsWithAt(m, UnspecifiedEntityPrefix, InvalidActionApplicationBase, 2);  // 's' of "unspecified" vs 'a' of "unable"
      BetweenConcat(UnspecifiedEntityPrefix, d.entityId, UnspecifiedEntitySuffix);
  }

  /** Two errors of this model's own kinds with the same message are the same error kind. */
  lemma ErrorKindMessageInjective(k1: ValidationErrorKind, k2: ValidationErrorKind, typeErrorMessage: TypeErrorKind -> string)
    requires HasUnambiguousMessage(k1) && HasUnambiguousMessage(k2)
    requires k1.Message(typeErrorMessage) == k2.Message(typeErrorMessage)
    ensures k1 == k2
  {
    ErrorKindRoundTrip(k1, typeErrorMessage);
    ErrorKindRoundTrip(k2, typeErrorMessage);
  }

  // ---------------------------------------------------------------------------
  // Warning kinds
  // ---------------------------------------------------------------------------

  function ParseWarningKind(m: string): (r: Option<ValidationWarningKind>)
    ensures r.Some? ==> !r.value.TypeWarning?
    ensures r.Some? ==> m == r.value.TemplatePrefix() + r.value.text + r.value.TemplateSuffix()
  {
    var mixedString := Between(m, StringPrefix, MixedScriptStringSuffix);
    if mixedString.Some? then Some(MixedScriptString(mixedString.value)) else
    var bidiString := Between(m, StringPrefix, BidiCharsInStringSuffix);
    if bidiString.Some? then Some(BidiCharsInString(bidiString.value)) else
    var bidiIdentifier := Between(m, IdentifierPrefix, BidiCharsInIdentifierSuffix);
    if bidiIdentifier.Some? then Some(BidiCharsInIdentifier(bidiIdentifier.value)) else
    var mixedIdentifier := Between(m, IdentifierPrefix, MixedScriptIdentifierSuffix);
    if mixedIdentifier.Some? then Some(MixedScriptIdentifier(mixedIdentifier.value)) else
    var confusable := Between(m, IdentifierPrefix, ConfusableIdentifierSuffix);
    if confusable.Some? then Some(ConfusableIdentifier(confusable.value)) else
    None
  }

  lemma MixedScriptStringRoundTrip(t: string)
    ensures ParseWarningKind(StringPrefix + t + MixedScriptStringSuffix) == Some(MixedScriptString(t))
  {
    BetweenConcat(StringPrefix, t, MixedScriptStringSuffix);
  }

  lemma BidiCharsInStringRoundTrip(t: string)
    ensures ParseWarningKind(StringPrefix + t + BidiCharsInStringSuffix) == Some(BidiCharsInString(t))
  {
    var m := StringPrefix + t + BidiCharsInStringSuffix;
    BetweenConcat(StringPrefix, t, BidiCharsInStringSuffix);
    NotEndsWithAt(m, BidiCharsInStringSuffix, MixedScriptStringSuffix, 1);  // 'r' of "characters" vs 't' of "scripts"
  }

  lemma BidiCharsInIdentifierRoundTrip(t: string)
    ensures ParseWarningKind(IdentifierPrefix + t + BidiCharsInIdentifierSuffix) == Some(BidiCharsInIdentifier(t))
  {
    var m := IdentifierPrefix + t + BidiCharsInIdentifierSuffix;
    BetweenConcat(IdentifierPrefix, t, BidiCharsInIdentifierSuffix);
    NotStartsWithAt(m, IdentifierPrefix, StringPrefix, 0);  // 'i' of "identifier" vs 's' of "string"
  }

  lemma MixedScriptIdentifierRoundTrip(t: string)
    ensures ParseWarningKind(IdentifierPrefix + t + MixedScriptIdentifierSuffix) == Some(MixedScriptIdentifier(t))
  {
    var m := IdentifierPrefix + t + MixedScriptIdentifierSuffix;
    BetweenConcat(IdentifierPrefix, t, MixedScriptIdentifierSuffix);
    NotStartsWithAt(m, IdentifierPrefix, StringPrefix, 0);  // 'i' of "identifier" vs 's' of "string"
    NotEndsWithAt(m, MixedScriptIdentifierSuffix, BidiCharsInIdentifierSuffix, 1);  // 't' of "scripts" vs 'r' of "characters"
  }

  lemma ConfusableIdentifierRoundTrip(t: string)
    ensures ParseWarningKind(IdentifierPrefix + t + ConfusableIdentifierSuffix) == Some(ConfusableIdentifier(t))
  {
    var m := IdentifierPrefix + t + ConfusableIdentifierSuffix;
    BetweenConcat(IdentifierPrefix, t, ConfusableIdentifierSuffix);
    NotStartsWithAt(m, IdentifierPrefix, StringPrefix, 0);  // 'i' of "identifier" vs 's' of "string"
    NotEndsWithAt(m, ConfusableIdentifierSuffix, BidiCharsInIdentifierSuffix, 3);  // 'i' of "Identifiers" vs 't' of "characters"
    NotEndsWithAt(m, ConfusableIdentifierSuffix, MixedScriptIdentifierSuffix, 1);  // 'r' of "Identifiers" vs 't' of "scripts"
  }

  lemma WarningKindRoundTrip(k: ValidationWarningKind, typeWarningMessage: TypeWarningKind -> string)
    requires !k.TypeWarning?
    ensures ParseWarningKind(k.Message(typeWarningMessage)) == Some(k)
  {
    match k
    case MixedScriptString(t) => MixedScriptStringRoundTrip(t);
    case BidiCharsInString(t) => BidiCharsInStringRoundTrip(t);
    case BidiCharsInIdentifier(t) => BidiCharsInIdentifierRoundTrip(t);
    case MixedScriptIdentifier(t) => MixedScriptIdentifierRoundTrip(t);
    case ConfusableIdentifier(t) => ConfusableIdentifierRoundTrip(t);
  }

  /** Two warnings of the Unicode kinds with the same message are the same warning kind. */
  lemma WarningKindMessageInjective(k1: ValidationWarningKind, k2: ValidationWarningKind, typeWarningMessage: TypeWarningKind -> string)
    requires !k1.TypeWarning? && !k2.TypeWarning?
    requires k1.Message(typeWarningMessage) == k2.Message(typeWarningMessage)
    ensures k1 == k2
  {
    WarningKindRoundTrip(k1, typeWarningMessage);
    WarningKindRoundTrip(k2, typeWarningMessage);
  }

  // ---------------------------------------------------------------------------
  // "validation warning on policy `<id>`: <message>"
  // ---------------------------------------------------------------------------

  /** Splits a displayed warning into the policy id text and the kind's message. */
  function ParseWarningDisplay(s: string): (r: Option<(string, string)>)
    ensures r.Some? ==> '`' !in r.value.0
    ensures r.Some? ==> s == WarningDisplayPrefix + r.value.0 + WarningDisplaySeparator + r.value.1
  {
    if !StartsWith(s, WarningDisplayPrefix) then None
    else
      assert s == WarningDisplayPrefix + s[|WarningDisplayPrefix|..];
      var split := SplitAtFirst(s[|WarningDisplayPrefix|..], '`');
      if split.None? then None
      else
        var (id, after) := split.value;
        if !StartsWith(after, ": ") then None
        else
          assert after == ": " + after[2..];
          Some((id, after[2..]))
  }

  lemma ParseWarningDisplayRoundTrip(id: string, message: string)
    requires '`' !in id
    ensures ParseWarningDisplay(WarningDisplayPrefix + id + WarningDisplaySeparator + message) == Some((id, message))
  {
    var after := ": " + message;
    var rest := id + ['`'] + after;
    var s := WarningDisplayPrefix + id + WarningDisplaySeparator + message;
    assert s == WarningDisplayPrefix + rest;
    StartsWithConcat(WarningDisplayPrefix, rest);
    assert s[|WarningDisplayPrefix|..] == rest;
    SplitAtFirstConcat(id, '`', after);
    StartsWithConcat(": ", message);
    assert after[2..] == message;
  }

  lemma WarningDisplayRoundTrip(w: ValidationWarning, policyIdText: PolicyID -> string, typeWarningMessage: TypeWarningKind -> string)
    requires '`' !in policyIdText(w.Location().PolicyId())
    ensures ParseWarningDisplay(w.Display(policyIdText, typeWarningMessage))
         == Some((policyIdText(w.Location().PolicyId()), w.Kind().Message(typeWarningMessage)))
  {
    ParseWarningDisplayRoundTrip(policyIdText(w.Location().PolicyId()), w.Kind().Message(typeWarningMessage));
  }

  /**
   * Two displayed warnings of the Unicode kinds that read the same name the
   * same policy text and the same warning kind. The source span is not shown.
   */
  lemma WarningDisplayInjective(w1: ValidationWarning, w2: ValidationWarning,
                                policyIdText: PolicyID -> string, typeWarningMessage: TypeWarningKind -> string)
    requires !w1.Kind().TypeWarning? && !w2.Kind().TypeWarning?
    requires '`' !in policyIdText(w1.Location().PolicyId()) && '`' !in policyIdText(w2.Location().PolicyId())
    requires w1.Display(policyIdText, typeWarningMessage) == w2.Display(policyIdText, typeWarningMessage)
    ensures policyIdText(w1.Location().PolicyId()) == policyIdText(w2.Location().PolicyId())
    ensures w1.Kind() == w2.Kind()
  {
    WarningDisplayRoundTrip(w1, policyIdText, typeWarningMessage);
    WarningDisplayRoundTrip(w2, policyIdText, typeWarningMessage);
    WarningKindMessageInjective(w1.Kind(), w2.Kind(), typeWarningMessage);
  }

  /** Moving a separator-and-prefix pair from one side of a join to the other. */
  lemma ConcatShift(p: string, a: string, sep: string, q: string, y: string, t: string, suffix: string)
    ensures p + a + sep + (q + (y + sep + q + t) + suffix) == p + (a + sep + q + y) + sep + (q + t + suffix)
  {
  }

  /**
   * Without the no-backtick condition on the policy id text, two warnings on
   * differently rendered policies with different kinds can display the same:
   * the "`: " may close the id or belong to the warning's text.
   */
  lemma BacktickInPolicyIdIsAmbiguous(id1: PolicyID, id2: PolicyID, span: Option<SourceInfo>,
                                      a: string, y: string, t: string,
                                      policyIdText: PolicyID -> string, typeWarningMessage: TypeWarningKind -> string)
    requires policyIdText(id1) == a
    requires policyIdText(id2) == a + WarningDisplaySeparator + StringPrefix + y
    ensures
      var w1 := ValidationWarning.WithPolicyId(id1, span, MixedScriptString(y + WarningDisplaySeparator + StringPrefix + t));
      var w2 := ValidationWarning.WithPolicyId(id2, span, MixedScriptString(t));
      && policyIdText(id1) != policyIdText(id2)
      && w1.Kind() != w2.Kind()
      && w1.Display(policyIdText, typeWarningMessage) == w2.Display(policyIdText, typeWarningMessage)
  {
    var text1 := y + WarningDisplaySeparator + StringPrefix + t;
    var w1 := ValidationWarning.WithPolicyId(id1, span, MixedScriptString(text1));
    var w2 := ValidationWarning.WithPolicyId(id2, span, MixedScriptString(t));
    assert w1.Display(policyIdText, typeWarningMessage)
        == WarningDisplayPrefix + a + WarningDisplaySeparator + (StringPrefix + text1 + MixedScriptStringSuffix);
    assert w2.Display(policyIdText, typeWarningMessage)
        == WarningDisplayPrefix + policyIdText(id2) + WarningDisplaySeparator + (StringPrefix + t + MixedScriptStringSuffix);
    ConcatShift(WarningDisplayPrefix, a, WarningDisplaySeparator, StringPrefix, y, t, MixedScriptStringSuffix);
    assert |text1| > |t|;
    assert |policyIdText(id2)| > |a|;
  }
}
