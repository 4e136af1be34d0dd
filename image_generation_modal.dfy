/** The image dialog for one riddle: it asks the image service for pictures
    once, shows them or an error, and names the file a picture is saved
    under. The service's answer is a parameter: the list of encoded images,
    or the error the call was rejected with. */
module ImageModal {
  import opened Wrappers
  import opened Types
  import Strings
  import ErrorClassifier

  /** The two texts of the Error raised for an empty list of images, written
      in short pieces so that the verifier can see each of their characters. */
  const NoImagesEn := "The model " + "did not " + "return any " + "images. The "
                      + "prompt may " + "have been " + "rejected for " + "safety reasons."
  const NoImagesAr := "لم يقم " + "النموذج بإرجاع " + "أي صور. " + "ربما تم "
                      + "رفض النص " + "لأسباب تتعلق " + "بالسلامة."
  const ImagesFailedEn := "Failed to generate images. The model might be temporarily unavailable or the request was blocked."
  const ImagesFailedAr := "فشل في إنشاء الصور. قد يكون النموذج غير متاح مؤقتًا أو تم حظر الطلب."

  /** The text of the Error raised for an empty list of images. */
  function NoImagesMessage(isEnglish: bool): string {
    if isEnglish then NoImagesEn else NoImagesAr
  }

  function ImagesFailedMessage(isEnglish: bool): string {
    if isEnglish then ImagesFailedEn else ImagesFailedAr
  }

  /** The message a failed image request shows: the rate-limit message
      exactly when the error text mentions a rate-limit marker, the image
      failure message otherwise. */
  function ImageErrorMessage(errorText: string, isEnglish: bool): (m: string)
    ensures m == ErrorClassifier.RateLimitMessage(isEnglish) <==> ErrorClassifier.MentionsRateLimit(errorText)
    ensures m != ErrorClassifier.RateLimitMessage(isEnglish) ==> m == ImagesFailedMessage(isEnglish)
  {
    ErrorClassifier.FriendlyErrorMessage(errorText, isEnglish, ImagesFailedMessage(isEnglish))
  }

  /** The error the dialog is left with, as the code is written: the Error
      for an empty list is raised inside the `try`, so the `catch` classifies
      its text like any rejected call. Its message and its serialisation
      (an Error serialises to "{}") give the error text. */
  function ErrorAfterGenerateAsWritten(reply: Result<seq<string>, ApiError>, isEnglish: bool): (r: Option<string>)
    ensures r.None? <==> reply.Ok? && |reply.value| > 0
    ensures reply.Err? ==> r == Some(ImageErrorMessage(ErrorClassifier.ErrorText(reply.error), isEnglish))
    ensures r.Some? ==> r.value == ErrorClassifier.RateLimitMessage(isEnglish) || r.value == ImagesFailedMessage(isEnglish)
  {
    match reply
    case Err(e) => Some(ImageErrorMessage(ErrorClassifier.ErrorText(e), isEnglish))
    case Ok(generatedImages) =>
      if |generatedImages| == 0 then
        var raised := ApiError(Some(NoImagesMessage(isEnglish)), "{}");
        Some(ImageErrorMessage(ErrorClassifier.ErrorText(raised), isEnglish))
      else
        None
  }

  /** The no-images texts have no `4`, no `R` and no `Q`, the first
      characters of the three rate-limit markers; one text and one
      character at a time. */
  lemma NoImagesEnLacksFour()
    ensures '4' !in NoImagesEn
  {
  }

  lemma NoImagesEnLacksR()
    ensures 'R' !in NoImagesEn
  {
  }

  lemma NoImagesEnLacksQ()
    ensures 'Q' !in NoImagesEn
  {
  }

  lemma NoImagesArLacksFour()
    ensures '4' !in NoImagesAr
  {
  }

  lemma NoImagesArLacksR()
    ensures 'R' !in NoImagesAr
  {
  }

  lemma NoImagesArLacksQ()
    ensures 'Q' !in NoImagesAr
  {
  }

  /** Hence the no-images text mentions none of the rate-limit markers. */
  lemma NoImagesMessageMentionsNoRateLimit(isEnglish: bool)
    ensures !ErrorClassifier.MentionsRateLimit(NoImagesMessage(isEnglish))
  {
    var s := NoImagesMessage(isEnglish);
    if isEnglish {
      NoImagesEnLacksFour();
      NoImagesEnLacksR();
      NoImagesEnLacksQ();
    } else {
      NoImagesArLacksFour();
      NoImagesArLacksR();
      NoImagesArLacksQ();
    }
    Strings.ContainsFirstChar(s, "429");
    Strings.ContainsFirstChar(s, "RESOURCE_EXHAUSTED");
    Strings.ContainsFirstChar(s, "Quota exceeded");
  }

  /** As written, an empty list of images never shows the message written
      for it: the `catch` finds no rate-limit marker in that text and shows
      the generic image-failure message, the one a rejected call shows. */
  lemma NoImagesMessageLostAsWritten(isEnglish: bool)
    ensures ErrorAfterGenerateAsWritten(Ok([]), isEnglish) == Some(ImagesFailedMessage(isEnglish))
    ensures ErrorAfterGenerateAsWritten(Ok([]), isEnglish) != Some(NoImagesMessage(isEnglish))
  {
    var raised := ApiError(Some(NoImagesMessage(isEnglish)), "{}");
    assert ErrorClassifier.ErrorText(raised) == NoImagesMessage(isEnglish);
    NoImagesMessageMentionsNoRateLimit(isEnglish);
    assert |NoImagesMessage(isEnglish)| != |ImagesFailedMessage(isEnglish)|;
  }

  /** The error the dialog is left with when the empty list is reported
      with its own message, as the raised Error intends. */
  function ErrorAfterGenerate(reply: Result<seq<string>, ApiError>, isEnglish: bool): Option<string> {
    match reply
    case Err(e) => Some(ImageErrorMessage(ErrorClassifier.ErrorText(e), isEnglish))
    case Ok(generatedImages) =>
      if |generatedImages| == 0 then Some(NoImagesMessage(isEnglish)) else None
  }

  /** With the empty list reported on its own, it can never be mistaken for
      a rejected call: no rejected call leaves the same message. A non-empty
      list leaves no error. */
  lemma EmptyResultIsDistinct(isEnglish: bool, e: ApiError, generatedImages: seq<string>)
    ensures ErrorAfterGenerate(Ok([]), isEnglish) == Some(NoImagesMessage(isEnglish))
    ensures ErrorAfterGenerate(Ok([]), isEnglish) != ErrorAfterGenerate(Err(e), isEnglish)
    ensures |generatedImages| > 0 <==> ErrorAfterGenerate(Ok(generatedImages), isEnglish).None?
  {
    var m := ImageErrorMessage(ErrorClassifier.ErrorText(e), isEnglish);
    assert m == ErrorClassifier.RateLimitMessage(isEnglish) || m == ImagesFailedMessage(isEnglish);
  }

  /** `${title.replace(/\s/g, '_')}_R${riddleNumber}_img${index + 1}.jpeg`. */
  function DownloadFileName(episode: Riddle, index: nat): (name: string)
    ensures |name| >= |episode.title| + 13
    ensures name[|name| - 5..] == ".jpeg"
  {
    Strings.ReplaceWhitespace(episode.title, '_') + "_R" + Strings.IntToString(episode.riddleNumber)
      + "_img" + Strings.IntToString(index + 1) + ".jpeg"
  }

  /** The name starts with the title, as long as the title, with each white
      space character turned into `_` and nothing else changed; the riddle
      number follows `_R`, the 1-based index follows `_img`, and the name
      ends in `.jpeg`. */
  lemma DownloadFileNameParts(episode: Riddle, index: nat)
    ensures var name := DownloadFileName(episode, index);
            var title := episode.title;
            var number := Strings.IntToString(episode.riddleNumber);
            && |name| == |title| + 2 + |number| + 4 + |Strings.IntToString(index + 1)| + 5
            && Strings.NoWhitespace(name[..|title|])
            && (forall i :: 0 <= i < |title| ==>
                  name[i] == if Strings.IsWhitespace(title[i]) then '_' else title[i])
            && Strings.OccursAt(name, "_R" + number, |title|)
            && Strings.OccursAt(name, "_img" + Strings.IntToString(index + 1), |title| + 2 + |number|)
            && name[|name| - 5..] == ".jpeg"
  {
    var name := DownloadFileName(episode, index);
    var safeTitle := Strings.ReplaceWhitespace(episode.title, '_');
    var number := Strings.IntToString(episode.riddleNumber);
    var position := Strings.IntToString(index + 1);
    assert name == safeTitle + ("_R" + number) + ("_img" + position) + ".jpeg";
    assert name[..|safeTitle|] == safeTitle;
    assert name[|safeTitle|..|safeTitle| + 2 + |number|] == "_R" + number;
    assert name[|safeTitle| + 2 + |number|..|safeTitle| + 2 + |number| + 4 + |position|] == "_img" + position;
  }

  /** Two pictures of the same riddle are saved under different names. */
  lemma DownloadFileNamesDistinct(episode: Riddle, i: nat, j: nat)
    ensures DownloadFileName(episode, i) == DownloadFileName(episode, j) ==> i == j
  {
    var stem := Strings.ReplaceWhitespace(episode.title, '_') + "_R" + Strings.IntToString(episode.riddleNumber) + "_img";
    var a, b := Strings.IntToString(i + 1), Strings.IntToString(j + 1);
    assert DownloadFileName(episode, i) == stem + a + ".jpeg";
    assert DownloadFileName(episode, j) == stem + b + ".jpeg";
    if DownloadFileName(episode, i) == DownloadFileName(episode, j) {
      assert a == (stem + a + ".jpeg")[|stem|..|stem| + |a|];
      assert b == (stem + b + ".jpeg")[|stem|..|stem| + |b|];
    }
    Strings.IntToStringInjective(i + 1, j + 1);
  }

  /** The dialog's state for one riddle. */
  class ImageGenerationModal {
    const episode: Riddle
    const isEnglish: bool
    var isLoading: bool
    var images: seq<string>
    var error: Option<string>

    /** The dialog opens loading, with no pictures and no error. */
    constructor (episode: Riddle, isEnglish: bool)
      ensures this.episode == episode && this.isEnglish == isEnglish
      ensures isLoading && images == [] && error == None
    {
      this.episode := episode;
      this.isEnglish := isEnglish;
      isLoading := true;
      images := [];
      error := None;
    }

    /** generate, as written: loading starts and the error is cleared; a
        non-empty list of images is kept exactly as returned; an empty list
        raises an Error that the `catch` classifies like a rejected call; a
        rejected call sets the classified error; in both failure cases the
        images are left alone; loading ends. */
    method Generate(reply: Result<seq<string>, ApiError>)
      modifies this
      ensures !isLoading
      ensures error == ErrorAfterGenerateAsWritten(reply, isEnglish)
      ensures reply.Ok? && |reply.value| > 0 ==> images == reply.value
      ensures !(reply.Ok? && |reply.value| > 0) ==> images == old(images)
    {
      isLoading := true;
      error := None;
      match reply {
        case Err(e) =>
          error := Some(ImageErrorMessage(ErrorClassifier.ErrorText(e), isEnglish));
        case Ok(generatedImages) =>
          if |generatedImages| == 0 {
            var raised := ApiError(Some(NoImagesMessage(isEnglish)), "{}");
            error := Some(ImageErrorMessage(ErrorClassifier.ErrorText(raised), isEnglish));
          } else {
            images := generatedImages;
          }
      }
      isLoading := false;
    }
  }
}
