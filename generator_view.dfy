/** The theme view: the selected theme, its riddle history, the loading and
    improving flags, the error message, and the handlers that generate the
    next riddle, improve a description, select a theme and reset. Each
    handler's call to the generative service is a parameter, and the
    handler runs to completion in one step. */
module Generator {
  import opened Wrappers
  import opened Types
  import Strings
  import GeminiService
  import ErrorClassifier

  const GenerateFailedEn := "Failed to generate a new riddle concept. The model might be temporarily unavailable or the request was blocked."
  const GenerateFailedAr := "فشل في إنشاء مفهوم لغز جديد. قد يكون النموذج غير متاح مؤقتًا أو تم حظر الطلب."
  const ImproveFailedEn := "Failed to improve the description."
  const ImproveFailedAr := "فشل في تحسين الوصف."

  function GenerateFailedMessage(isEnglish: bool): string {
    if isEnglish then GenerateFailedEn else GenerateFailedAr
  }

  function ImproveFailedMessage(isEnglish: bool): string {
    if isEnglish then ImproveFailedEn else ImproveFailedAr
  }

  /** The message a failed generation shows: the rate-limit message exactly
      when the error text mentions a rate-limit marker, the generation
      failure message otherwise; both in the language chosen. */
  function GenerateErrorMessage(errorText: string, isEnglish: bool): (m: string)
    ensures m == ErrorClassifier.RateLimitMessage(isEnglish) <==> ErrorClassifier.MentionsRateLimit(errorText)
    ensures m != ErrorClassifier.RateLimitMessage(isEnglish) ==> m == GenerateFailedMessage(isEnglish)
  {
    ErrorClassifier.FriendlyErrorMessage(errorText, isEnglish, GenerateFailedMessage(isEnglish))
  }

  /** The message a failed improvement shows, classified the same way. */
  function ImproveErrorMessage(errorText: string, isEnglish: bool): (m: string)
    ensures m == ErrorClassifier.RateLimitMessage(isEnglish) <==> ErrorClassifier.MentionsRateLimit(errorText)
    ensures m != ErrorClassifier.RateLimitMessage(isEnglish) ==> m == ImproveFailedMessage(isEnglish)
  {
    ErrorClassifier.FriendlyErrorMessage(errorText, isEnglish, ImproveFailedMessage(isEnglish))
  }

  /** `riddles.map(r => r.riddleNumber === n ? { ...r, description } : r)`. */
  function WithDescription(riddles: seq<Riddle>, riddleNumber: int, description: string): (r: seq<Riddle>)
    ensures |r| == |riddles|
    ensures forall i :: 0 <= i < |r| ==>
              && r[i].riddleNumber == riddles[i].riddleNumber
              && r[i].title == riddles[i].title
              && r[i].solution == riddles[i].solution
    ensures forall i :: 0 <= i < |r| && riddles[i].riddleNumber == riddleNumber ==>
              r[i].description == description
    ensures forall i :: 0 <= i < |r| && riddles[i].riddleNumber != riddleNumber ==> r[i] == riddles[i]
  {
    if riddles == [] then
      []
    else
      var head := if riddles[0].riddleNumber == riddleNumber then riddles[0].(description := description) else riddles[0];
      [head] + WithDescription(riddles[1..], riddleNumber, description)
  }

  /** The history holds riddles 1, 2, 3, ... in order, as generation makes it. */
  ghost predicate NumberedInOrder(riddles: seq<Riddle>) {
    forall i :: 0 <= i < |riddles| ==> riddles[i].riddleNumber == i + 1
  }

  /** Appending the corrected riddle keeps the numbering 1, 2, 3, ...
      whatever number the model wrote. */
  lemma GenerationKeepsNumbering(riddles: seq<Riddle>, parsed: Riddle)
    requires NumberedInOrder(riddles)
    ensures NumberedInOrder(riddles + [GeminiService.CorrectedRiddle(parsed, |riddles| + 1)])
  {
  }

  /** In a history numbered 1, 2, 3, ..., improving riddle k changes that one
      riddle's description and nothing else. */
  lemma ImproveTouchesOneRiddle(riddles: seq<Riddle>, k: nat, description: string)
    requires NumberedInOrder(riddles) && k < |riddles|
    ensures WithDescription(riddles, riddles[k].riddleNumber, description)
            == riddles[k := riddles[k].(description := description)]
  {
    var r := WithDescription(riddles, riddles[k].riddleNumber, description);
    forall i | 0 <= i < |riddles| ensures r[i] == riddles[k := riddles[k].(description := description)][i] {
      if i == k {
        assert r[i].description == description;
      } else {
        assert riddles[i].riddleNumber != riddles[k].riddleNumber;
      }
    }
  }

  /** The view's state. `storage` is the browser's local storage. */
  class GeneratorView {
    const storage: GeminiService.Storage
    var selectedConcept: Option<Concept>
    var riddles: seq<Riddle>
    var isLoading: bool
    var isImprovingId: Option<int>
    var error: Option<string>

    /** The history on screen is the selected theme's stored history; with no
        theme selected it is empty. */
    ghost predicate Valid()
      reads this, storage
    {
      && (selectedConcept.None? ==> riddles == [])
      && (selectedConcept.Some? ==> riddles == StoredHistory(storage.GetStoredData(), selectedConcept.value.id))
    }

    constructor (storage: GeminiService.Storage)
      ensures Valid() && this.storage == storage
      ensures selectedConcept == None && riddles == [] && !isLoading && isImprovingId == None && error == None
    {
      this.storage := storage;
      selectedConcept := None;
      riddles := [];
      isLoading := false;
      isImprovingId := None;
      error := None;
    }

    /** handleSelectConcept and the effect it triggers: the theme's stored
        history is loaded, or the empty history when there is none. */
    method HandleSelectConcept(concept: Concept)
      modifies this
      ensures Valid()
      ensures selectedConcept == Some(concept)
      ensures riddles == StoredHistory(storage.GetStoredData(), concept.id)
      ensures isLoading == old(isLoading) && isImprovingId == old(isImprovingId) && error == old(error)
    {
      selectedConcept := Some(concept);
      var data := storage.GetStoredData();
      riddles := StoredHistory(data, concept.id);
    }

    /** handleGenerateNextRiddle. On success the new riddle, numbered
        |riddles| + 1, is appended and the theme's entry of the store, and
        no other, is rewritten; on failure only the error message changes.
        Either way loading ends. Without a theme nothing happens. The request
        is built from the state the handler starts in; since the handler runs
        in one step, raising the loading flag before or after it is the same. */
    method HandleGenerateNextRiddle(textModel: GeminiService.RiddleModel)
      requires Valid()
      modifies this, storage
      ensures Valid()
      ensures selectedConcept == old(selectedConcept) && isImprovingId == old(isImprovingId)
      ensures old(selectedConcept).None? ==>
                riddles == old(riddles) && isLoading == old(isLoading) && error == old(error)
                && storage.item == old(storage.item)
      ensures old(selectedConcept).Some? ==>
                var concept := old(selectedConcept).value;
                var expected := |old(riddles)| + 1;
                var reply := old(textModel(concept, expected, GeminiService.PreviousRiddleContext(riddles)));
                && !isLoading
                && (reply.Ok? ==>
                      && riddles == old(riddles) + [GeminiService.CorrectedRiddle(reply.value, expected)]
                      && storage.GetStoredData() == old(storage.GetStoredData())[ThemeKey(concept.id) := riddles]
                      && error == None)
                && (reply.Err? ==>
                      && riddles == old(riddles)
                      && storage.item == old(storage.item)
                      && error == Some(GenerateErrorMessage(ErrorClassifier.ErrorText(reply.error),
                                                            Strings.HasAsciiLetter(concept.title))))
    {
      if selectedConcept.None? {
        return;
      }
      var concept := selectedConcept.value;
      var isEnglish := Strings.HasAsciiLetter(concept.title);
      var outcome := GeminiService.GenerateRiddle(concept, riddles, textModel);
      isLoading := true;
      error := None;
      match outcome {
        case Ok(newRiddle) =>
          var updatedRiddles := riddles + [newRiddle];
          riddles := updatedRiddles;
          var data := storage.GetStoredData();
          data := data[ThemeKey(concept.id) := updatedRiddles];
          storage.SaveStoredData(data);
        case Err(e) =>
          error := Some(GenerateErrorMessage(ErrorClassifier.ErrorText(e), isEnglish));
      }
      isLoading := false;
    }

    /** handleImproveDescription. On success every riddle carrying the
        target's number gets the trimmed improved description and the
        theme's entry of the store, and no other, is rewritten; on failure
        only the error message changes. Either way improving ends. Without a
        theme nothing happens. */
    method HandleImproveDescription(riddleToImprove: Riddle, textModel: GeminiService.DescriptionModel)
      requires Valid()
      modifies this, storage
      ensures Valid()
      ensures selectedConcept == old(selectedConcept) && isLoading == old(isLoading)
      ensures old(selectedConcept).None? ==>
                riddles == old(riddles) && isImprovingId == old(isImprovingId) && error == old(error)
                && storage.item == old(storage.item)
      ensures old(selectedConcept).Some? ==>
                var concept := old(selectedConcept).value;
                var reply := GeminiService.ImproveRiddleDescription(riddleToImprove.description, textModel);
                && isImprovingId == None
                && (reply.Ok? ==>
                      && riddles == WithDescription(old(riddles), riddleToImprove.riddleNumber, reply.value)
                      && storage.GetStoredData() == old(storage.GetStoredData())[ThemeKey(concept.id) := riddles]
                      && error == None)
                && (reply.Err? ==>
                      && riddles == old(riddles)
                      && storage.item == old(storage.item)
                      && error == Some(ImproveErrorMessage(ErrorClassifier.ErrorText(reply.error),
                                                           Strings.HasAsciiLetter(concept.title))))
    {
      if selectedConcept.None? {
        return;
      }
      var concept := selectedConcept.value;
      isImprovingId := Some(riddleToImprove.riddleNumber);
      error := None;
      var outcome := GeminiService.ImproveRiddleDescription(riddleToImprove.description, textModel);
      match outcome {
        case Ok(improvedDescription) =>
          var updatedRiddles := WithDescription(riddles, riddleToImprove.riddleNumber, improvedDescription);
          riddles := updatedRiddles;
          var data := storage.GetStoredData();
          data := data[ThemeKey(concept.id) := updatedRiddles];
          storage.SaveStoredData(data);
        case Err(e) =>
          var isEnglish := Strings.HasAsciiLetter(concept.title);
          error := Some(ImproveErrorMessage(ErrorClassifier.ErrorText(e), isEnglish));
      }
      isImprovingId := None;
    }

    /** handleReset: back to the theme list, with no history and no error. */
    method HandleReset()
      modifies this
      ensures Valid()
      ensures selectedConcept == None && riddles == [] && error == None
      ensures isLoading == old(isLoading) && isImprovingId == old(isImprovingId)
    {
      selectedConcept := None;
      riddles := [];
      error := None;
    }
  }

  /** A store update for one theme leaves every other theme's entry as it was. */
  lemma OtherThemesUnchanged(data: StoredData, id: int, history: seq<Riddle>, other: int)
    requires other != id
    ensures StoredHistory(data[ThemeKey(id) := history], other) == StoredHistory(data, other)
  {
    ThemeKeyInjective(other, id);
  }
}
