/** How a rejected call becomes a message for the user. The source repeats
    this test inline at each call site (generation, improvement, images);
    here it is defined once and each site supplies its own failure message. */
module ErrorClassifier {
  import opened Wrappers
  import opened Types
  import Strings

  const RateLimitMessageEn := "You're making requests too quickly. Please wait a moment and try again."
  const RateLimitMessageAr := "لقد قمت بتقديم طلبات كثيرة جدًا بسرعة. يرجى الانتظار لحظة ثم المحاولة مرة أخرى."

  /** `err.message || JSON.stringify(err)`: the message when it is a
      non-empty string, otherwise the serialised error. */
  function ErrorText(e: ApiError): string {
    if e.message.Some? && e.message.value != "" then e.message.value else e.serialized
  }

  /** Reference meaning of a rate-limit error: its text mentions one of the
      three markers. */
  ghost predicate MentionsRateLimit(errorText: string) {
    || Strings.Contains(errorText, "429")
    || Strings.Contains(errorText, "RESOURCE_EXHAUSTED")
    || Strings.Contains(errorText, "Quota exceeded")
  }

  /** The `includes` test the handlers run on the error text. */
  function IsRateLimited(errorText: string): (b: bool)
    ensures b <==> MentionsRateLimit(errorText)
  {
    || Strings.Includes(errorText, "429")
    || Strings.Includes(errorText, "RESOURCE_EXHAUSTED")
    || Strings.Includes(errorText, "Quota exceeded")
  }

  function RateLimitMessage(isEnglish: bool): string {
    if isEnglish then RateLimitMessageEn else RateLimitMessageAr
  }

  /** The rate-limit message for a rate-limit error, otherwise the call
      site's own failure message. */
  function FriendlyErrorMessage(errorText: string, isEnglish: bool, failureMessage: string): string {
    if IsRateLimited(errorText) then RateLimitMessage(isEnglish) else failureMessage
  }

  /** A rejected call with a non-empty message is classified by that message
      alone, whatever its serialisation; one without is classified by its
      serialisation. */
  lemma ClassifiedByMessageFirst(e: ApiError, other: ApiError)
    ensures e.message.Some? && e.message.value != "" ==>
              (IsRateLimited(ErrorText(e)) <==> MentionsRateLimit(e.message.value))
    ensures (e.message.None? || e.message.value == "") ==>
              (IsRateLimited(ErrorText(e)) <==> MentionsRateLimit(e.serialized))
    ensures e.message.Some? && e.message.value != "" && other.message == e.message ==>
              IsRateLimited(ErrorText(other)) == IsRateLimited(ErrorText(e))
  {
  }
}
