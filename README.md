# Cedar validation outcome model

A Dafny model of `cedar-policy-validator/src/validation_result.rs`, the data
that a Cedar policy validation run hands back to its caller:

- `ValidationResult`, the ordered errors and warnings of one run, and its
  verdict: validation passes exactly when there are no errors, whatever the
  warnings.
- `ValidationError` and `ValidationWarning`, each a `SourceLocation` (policy
  id plus optional source span) paired with a kind, with their constructors,
  accessors and consuming decompositions.
- The closed kinds `ValidationErrorKind` and `ValidationWarningKind` with
  their detail structures, their factory functions and the message that each
  variant renders to, plus the one-line `Display` of a warning.

The source is pure (no mutable state, no loops), so the model is too: Rust
structs and enums become datatypes, methods become functions, and
`Vec`/iterators become `seq`. `PolicyID`, `SourceInfo`, `TypeErrorKind` and
`TypeWarningKind` come from other crates or modules. They are abstract types
here. The text of a policy id and the messages of the type checker's kinds
are function parameters (`policyIdText`, `typeErrorMessage`,
`typeWarningMessage`). That is how the `#[error(transparent)]` delegation is
stated.

Beyond the direct contracts, module `MessageParsing` gives each message
template an inverse parser. It proves round trips and injectivity: a message
determines the error or warning kind it was rendered from, and a warning's
display determines its policy id's text and its kind. Neither recovers the
`PolicyID` value itself or the source span. It also proves that each optional
clause (the "did you mean" suggestion, the two `==`→`in` hints) is present
exactly when its field says so, with the principal hint before the resource
hint. Three conditions apply:

- They cover only the kinds with their own template. A type error or type
  warning renders as the type checker's message, which the model does not
  constrain, so it is excluded.
- A backtick ends a quoted name. So the error-kind results need entity type
  and action names without a
  backtick. `BacktickInNameIsAmbiguous` shows two different errors that
  render the same text when a name has one.
- The warning-display results need the policy id's text without a backtick.
  `BacktickInPolicyIdIsAmbiguous` shows two warnings on different policies,
  with different kinds, that display the same when an id's text has one.

Files: `wrappers.dfy` (Option), `strings.dfy` (prefix/suffix/search helpers),
`validation_result.dfy` (the model), `message_parsing.dfy` (inverses and
message properties), `scenarios.dfy` (worked examples).

## Model

| member | source | states |
|---|---|---|
| `Validation.ValidationResult.New` | cedar-policy-validator/src/validation_result.rs:33-41 | the stored errors and warnings are exactly the given sequences, in order; the result passes iff no error was given |
| `Validation.ValidationResult.ValidationPassed` | cedar-policy-validator/src/validation_result.rs:43-47 | passes iff the error sequence is empty, i.e. iff no error is in it |
| `Validation.ValidationResult.IntoErrorsAndWarnings` | cedar-policy-validator/src/validation_result.rs:59-70 | yields exactly the sequences `ValidationErrors()`/`ValidationWarnings()` expose, and rebuilding a result from them gives the same result |
| `Validation.ValidationResult.ValidationErrors` | cedar-policy-validator/src/validation_result.rs:49-52 | returns the stored errors, in insertion order |
| `Validation.ValidationResult.ValidationWarnings` | cedar-policy-validator/src/validation_result.rs:54-57 | returns the stored warnings, in insertion order |
| `Validation.WarningsNeverAffectVerdict` | cedar-policy-validator/src/validation_result.rs:22-25 | two results with the same errors have the same verdict whatever their warnings |
| `Validation.OnlyWarningsPasses` | cedar-policy-validator/src/validation_result.rs:43-47 | a result with no errors and any warnings passes |
| `Validation.ResultRoundTrip` | cedar-policy-validator/src/validation_result.rs:33-70 | decomposing `new(e, w)` gives back `(e, w)` |
| `Validation.SourceLocation.New` | cedar-policy-validator/src/validation_result.rs:119-139 | `policy_id()`, `source_info()` and `into_source_info()` of `new(id, si)` give back `id`, `si`, `si` |
| `Validation.SourceLocation.IntoSourceInfo` | cedar-policy-validator/src/validation_result.rs:132-138 | the consuming form returns the same span as `source_info()` |
| `Validation.SourceLocation.PolicyId` | cedar-policy-validator/src/validation_result.rs:127-130 | returns the policy id the location was built with |
| `Validation.SourceLocation.SourceInfo` | cedar-policy-validator/src/validation_result.rs:132-134 | returns the span the location was built with |
| `Validation.ValidationError.WithPolicyId` | cedar-policy-validator/src/validation_result.rs:85-94 | location is `SourceLocation::new(id, si)` (so its id and span are `id`, `si`), error kind is `k`, and the decomposition gives `(SourceLocation::new(id, si), k)` |
| `Validation.ValidationError.IntoLocationAndErrorKind` | cedar-policy-validator/src/validation_result.rs:96-109 | the decomposition agrees with `location()` and `error_kind()` |
| `Validation.ValidationError.ErrorKind` | cedar-policy-validator/src/validation_result.rs:101-104 | returns the kind the error was built with |
| `Validation.ValidationError.Location` | cedar-policy-validator/src/validation_result.rs:106-109 | returns the location the error was built with |
| `Validation.ValidationWarning.WithPolicyId` | cedar-policy-validator/src/validation_result.rs:236-245 | location is `SourceLocation::new(id, si)`, kind is `k`, and `to_kind_and_location` gives `(SourceLocation::new(id, si), k)` |
| `Validation.ValidationWarning.ToKindAndLocation` | cedar-policy-validator/src/validation_result.rs:247-257 | the decomposition agrees with `location()` and `kind()`; the location comes first |
| `Validation.ValidationWarning.Location` | cedar-policy-validator/src/validation_result.rs:247-249 | returns the location the warning was built with |
| `Validation.ValidationWarning.Kind` | cedar-policy-validator/src/validation_result.rs:251-253 | returns the kind the warning was built with |
| `Validation.ValidationWarning.Display` | cedar-policy-validator/src/validation_result.rs:260-268 | the text is "validation warning on policy `", then exactly the id's text, then "`: ", then the kind's message, adjacent and in that order |
| `Validation.DidYouMean` | cedar-policy-validator/src/validation_result.rs:151-154 | no suggestion gives the empty clause; a suggestion `s` gives a clause that reads back, between ", did you mean `" and "`?", as exactly `s` |
| `Validation.UnrecognizedEntityType.Message` | cedar-policy-validator/src/validation_result.rs:148-156 | the text is "unrecognized entity type `", then exactly the actual name, then "`" and the suggestion clause |
| `Validation.UnrecognizedActionId.Message` | cedar-policy-validator/src/validation_result.rs:158-166 | the text is "unrecognized action `", then exactly the actual id, then "`" and the suggestion clause |
| `Validation.InvalidActionApplication.Message` | cedar-policy-validator/src/validation_result.rs:170-175 | the text starts with the base text; the principal hint follows it when `would_in_fix_principal`; it ends with the resource hint when `would_in_fix_resource`; its length is the base plus the hints that are set |
| `Validation.UnspecifiedEntity.Message` | cedar-policy-validator/src/validation_result.rs:181-185 | the text is "unspecified entity with eid `", then exactly the entity id, then "`. Unspecified entities cannot be used in policies" |
| `Validation.ValidationErrorKind.TemplateMessage` | cedar-policy-validator/src/validation_result.rs:148-185 | every kind other than a type error has a non-empty message |
| `Validation.ValidationErrorKind.Message` | cedar-policy-validator/src/validation_result.rs:176-178 | a type error's message is the type checker's message, unchanged; every other kind renders through its template |
| `Validation.ValidationErrorKind.NewUnrecognizedEntityType` | cedar-policy-validator/src/validation_result.rs:189-197 | an `UnrecognizedEntityType` kind whose actual and suggested names are the arguments |
| `Validation.ValidationErrorKind.NewUnrecognizedActionId` | cedar-policy-validator/src/validation_result.rs:199-207 | an `UnrecognizedActionId` kind whose actual and suggested ids are the arguments |
| `Validation.ValidationErrorKind.NewInvalidActionApplication` | cedar-policy-validator/src/validation_result.rs:209-217 | an `InvalidActionApplication` kind whose two flags are the arguments |
| `Validation.ValidationErrorKind.NewTypeError` | cedar-policy-validator/src/validation_result.rs:219-221 | a `TypeError` kind wrapping the given type checker kind |
| `Validation.ValidationErrorKind.NewUnspecifiedEntity` | cedar-policy-validator/src/validation_result.rs:223-225 | an `UnspecifiedEntity` kind with the given entity id |
| `Validation.ValidationWarningKind.Message` | cedar-policy-validator/src/validation_result.rs:273-292 | a type warning renders as the type checker's message; each other kind quotes exactly its text between its template's prefix and suffix |
| `MessageParsing.ParseNamed` | cedar-policy-validator/src/validation_result.rs:148-166 | anything it reads is prefix + name + "`" + suggestion clause, with a name free of backticks |
| `MessageParsing.ParseNamedRoundTrip` | cedar-policy-validator/src/validation_result.rs:148-166 | a backtick-free name and any suggestion are read back exactly from their rendering |
| `MessageParsing.NamedSuggestionIff` | cedar-policy-validator/src/validation_result.rs:149-154 | the message starts with the base text, and ends with "`?" iff there is a suggestion |
| `MessageParsing.UnrecognizedEntityTypeSuggestionIff` | cedar-policy-validator/src/validation_result.rs:148-156 | the message ends with "`?" iff a suggestion is present; without one it is exactly "unrecognized entity type `<actual>`", with suggestion s it is exactly that followed by ", did you mean `s`?" |
| `MessageParsing.UnrecognizedActionIdSuggestionIff` | cedar-policy-validator/src/validation_result.rs:158-166 | the message ends with "`?" iff a suggestion is present; without one it is exactly "unrecognized action `<actual>`", with suggestion s it is exactly that followed by ", did you mean `s`?" |
| `MessageParsing.BacktickInNameIsAmbiguous` | cedar-policy-validator/src/validation_result.rs:148-156 | for any a, b, c: the name a + "`, did you mean `" + b with suggestion c, and the name a with suggestion b + "`, did you mean `" + c, are different details that render the same message |
| `MessageParsing.ParseInvalidActionApplication` | cedar-policy-validator/src/validation_result.rs:170-175 | anything it reads is the rendering of the flags it returns |
| `MessageParsing.ParseInvalidActionApplicationRoundTrip` | cedar-policy-validator/src/validation_result.rs:170-175 | both flags are read back from the message, so the four combinations render differently |
| `MessageParsing.PrincipalHintIff` | cedar-policy-validator/src/validation_result.rs:171-172 | the message starts with the base text, and the principal hint comes right after it iff `would_in_fix_principal` |
| `MessageParsing.ResourceHintIff` | cedar-policy-validator/src/validation_result.rs:173 | the message ends with the resource hint iff `would_in_fix_resource` |
| `MessageParsing.BothHintsInOrder` | cedar-policy-validator/src/validation_result.rs:170-174 | with both flags, exactly the principal hint stands between the base text and the trailing resource hint |
| `MessageParsing.ParseErrorKind` | cedar-policy-validator/src/validation_result.rs:146-186 | anything it reads is a kind with a readable message whose template renders to the input |
| `MessageParsing.ErrorKindRoundTrip` | cedar-policy-validator/src/validation_result.rs:146-186 | every non-type-error kind with backtick-free names is read back from its message |
| `MessageParsing.ErrorKindMessageInjective` | cedar-policy-validator/src/validation_result.rs:146-186 | two such kinds with the same message are equal |
| `MessageParsing.ParseWarningKind` | cedar-policy-validator/src/validation_result.rs:273-292 | anything it reads is a Unicode warning kind whose template renders to the input |
| `MessageParsing.WarningKindRoundTrip` | cedar-policy-validator/src/validation_result.rs:273-292 | every warning kind other than a type warning is read back from its message, whatever its text |
| `MessageParsing.WarningKindMessageInjective` | cedar-policy-validator/src/validation_result.rs:273-292 | two such warning kinds with the same message are equal |
| `MessageParsing.ParseWarningDisplay` | cedar-policy-validator/src/validation_result.rs:260-268 | anything it reads is prefix + backtick-free id + "`: " + message |
| `MessageParsing.ParseWarningDisplayRoundTrip` | cedar-policy-validator/src/validation_result.rs:260-268 | a backtick-free id and any message are read back from the display |
| `MessageParsing.WarningDisplayRoundTrip` | cedar-policy-validator/src/validation_result.rs:260-268 | for a policy id whose text has no backtick, the warning's display reads back as that text and the kind's message |
| `MessageParsing.WarningDisplayInjective` | cedar-policy-validator/src/validation_result.rs:260-292 | for policy ids whose text has no backtick, two Unicode warnings with the same display have the same policy id text and the same kind |
| `MessageParsing.BacktickInPolicyIdIsAmbiguous` | cedar-policy-validator/src/validation_result.rs:260-268 | for id texts a and a + "`: " + "string `\"" + y, the warnings MixedScriptString(y + "`: " + "string `\"" + t) and MixedScriptString(t) have different ids and kinds but the same display |
| `Scenarios.UnrecognizedUserFails` | cedar-policy-validator/src/validation_result.rs:148-156 | one unrecognized `User` error (suggestion `Useer`) fails validation and reads "unrecognized entity type `User`, did you mean `Useer`?" |
| `Scenarios.MixedScriptStringPasses` | cedar-policy-validator/src/validation_result.rs:273-276 | a result whose only diagnostic is a mixed-script warning for the literal "pаypal" passes, and that warning renders through the mixed-scripts string template |
| `Scenarios.UnrecognizedWidgetWithoutSuggestion` | cedar-policy-validator/src/validation_result.rs:148-155 | with no suggestion the message is just "unrecognized entity type `Widget`" |

## Left out

- Lifetimes and the borrowed `&'a PolicyID`: the policy id is a plain value, and ownership and moves do not apply. Consuming and borrowing accessors therefore return the same values.
- The internals of `PolicyID`, `SourceInfo`, `TypeErrorKind` and `TypeWarningKind`: these are abstract types. `PolicyID`'s `Display` is not part of this model, so the display of a warning takes the id's text as a function parameter.
- `thiserror`, `Debug`, `Clone`, test-only `Eq`/`PartialEq` and `std::fmt::Formatter`: messages are pure string functions, and equality is Dafny's structural equality on datatypes.
- `#[non_exhaustive]`: only compatibility at compile time; there is no behaviour to model.
- Iterators and `impl IntoIterator` arguments: these are modelled as `seq`.
- How suggestions, hint flags and confusable text are produced: other checkers do that, and they are not part of this model.
- `Validation.ValidationErrorKind.TemplateMessage`: the promise "an error kind's message is non-empty" covers only kinds with their own template. A type error's message is whatever the type checker renders, and the source does not constrain it.
