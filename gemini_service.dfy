/** The client side of the calls to the generative service: the number the
    next riddle must carry, the previous-riddle context put into the prompt,
    the correction of the number the model returns, the trimming of an
    improved description, and the persisted store.

    The service itself is a parameter: `RiddleModel` answers a prompt built
    from the theme, the requested riddle number and the previous-riddle
    context; `DescriptionModel` answers a prompt built from the original
    description. The rest of the prompt wording is fixed text. */
module GeminiService {
  import opened Wrappers
  import opened Types
  import Strings

  type RiddleModel = (Concept, int, string) -> Result<Riddle, ApiError>
  type DescriptionModel = string -> Result<string, ApiError>

  const FirstRiddleContext := "This is the first artistic riddle in the series."
  const ContextOpening := "\n    Context from the previous artwork (Riddle #"
  const ContextTitleLabel := "):\n    - Title: "
  const ContextIdeaLabel := "\n    - Brief Idea: "
  const ContextClosing := "...\n    \n    Please create a new, distinct artistic riddle that fits the theme.\n  "

  /** How many characters of the previous description the context quotes. */
  const ExcerptLength := 150

  /** Number of characters of the context that are fixed text. */
  const ContextFrameLength := |ContextOpening| + |ContextTitleLabel| + |ContextIdeaLabel| + |ContextClosing|

  function Min(a: int, b: int): int {
    if a < b then a else b
  }

  /** The context line of the generation prompt: a fixed sentence for the
      first riddle, otherwise a summary of the last riddle of the history. */
  function PreviousRiddleContext(riddles: seq<Riddle>): string {
    if |riddles| == 0 then
      FirstRiddleContext
    else
      var last := riddles[|riddles| - 1];
      ContextOpening + Strings.IntToString(last.riddleNumber) + ContextTitleLabel + last.title
        + ContextIdeaLabel + Strings.Prefix(last.description, ExcerptLength) + ContextClosing
  }

  /** For a non-empty history the context is the fixed opening, the last
      riddle's number, the title label, its title, the idea label, the first
      min(150, |description|) characters of its description and the fixed
      closing, each at the offset the pieces before it give. */
  lemma ContextOfLastRiddle(riddles: seq<Riddle>)
    requires |riddles| > 0
    ensures var last := riddles[|riddles| - 1];
            var context := PreviousRiddleContext(riddles);
            var number := Strings.IntToString(last.riddleNumber);
            var n := Min(ExcerptLength, |last.description|);
            var excerpt := last.description[..n];
            var titleAt := |ContextOpening| + |number| + |ContextTitleLabel|;
            var excerptAt := titleAt + |last.title| + |ContextIdeaLabel|;
            Strings.OccursAt(context, number, |ContextOpening|)
            && Strings.OccursAt(context, last.title, titleAt)
            && Strings.OccursAt(context, excerpt, excerptAt)
            && |context| == ContextFrameLength + |number| + |last.title| + n
  {
    var last := riddles[|riddles| - 1];
    var number := Strings.IntToString(last.riddleNumber);
    var n := Min(ExcerptLength, |last.description|);
    var excerpt := Strings.Prefix(last.description, ExcerptLength);
    assert excerpt == last.description[..n] && |excerpt| == n;
    assert PreviousRiddleContext(riddles)
        == ContextOpening + number + ContextTitleLabel + last.title + ContextIdeaLabel + excerpt + ContextClosing;
    Strings.PiecesAt(ContextOpening, number, ContextTitleLabel, last.title, ContextIdeaLabel, excerpt, ContextClosing);
  }

  /** Around those three parts, the context is the fixed text: the opening
      and the title label before the title ... */
  lemma ContextFixedHead(riddles: seq<Riddle>)
    requires |riddles| > 0
    ensures var last := riddles[|riddles| - 1];
            var context := PreviousRiddleContext(riddles);
            var number := Strings.IntToString(last.riddleNumber);
            && Strings.OccursAt(context, ContextOpening, 0)
            && Strings.OccursAt(context, ContextTitleLabel, |ContextOpening| + |number|)
  {
    var last := riddles[|riddles| - 1];
    var number := Strings.IntToString(last.riddleNumber);
    var excerpt := Strings.Prefix(last.description, ExcerptLength);
    Strings.PiecesAt(ContextOpening, number, ContextTitleLabel, last.title, ContextIdeaLabel, excerpt, ContextClosing);
  }

  /** ... and the idea label and the closing after it, each at its offset. */
  lemma ContextFixedTail(riddles: seq<Riddle>)
    requires |riddles| > 0
    ensures var last := riddles[|riddles| - 1];
            var context := PreviousRiddleContext(riddles);
            var number := Strings.IntToString(last.riddleNumber);
            var n := Min(ExcerptLength, |last.description|);
            var titleAt := |ContextOpening| + |number| + |ContextTitleLabel|;
            var excerptAt := titleAt + |last.title| + |ContextIdeaLabel|;
            && Strings.OccursAt(context, ContextIdeaLabel, titleAt + |last.title|)
            && Strings.OccursAt(context, ContextClosing, excerptAt + n)
  {
    var last := riddles[|riddles| - 1];
    var number := Strings.IntToString(last.riddleNumber);
    var excerpt := Strings.Prefix(last.description, ExcerptLength);
    assert |excerpt| == Min(ExcerptLength, |last.description|);
    Strings.PiecesAt(ContextOpening, number, ContextTitleLabel, last.title, ContextIdeaLabel, excerpt, ContextClosing);
  }

  /** The first-riddle sentence is used for the empty history only. */
  lemma FirstContextOnlyForEmptyHistory(riddles: seq<Riddle>)
    ensures PreviousRiddleContext(riddles) == FirstRiddleContext <==> riddles == []
  {
    if riddles != [] {
      ContextOfLastRiddle(riddles);
    }
  }

  /** Only the last riddle of the history shapes the context. */
  lemma ContextIgnoresEarlierRiddles(earlier: seq<Riddle>, later: seq<Riddle>, last: Riddle)
    ensures PreviousRiddleContext(earlier + [last]) == PreviousRiddleContext(later + [last])
  {
    assert (earlier + [last])[|earlier|] == last;
    assert (later + [last])[|later|] == last;
  }

  /** The riddle the client keeps: the parsed one, carrying the client's
      number in place of the one the model wrote. */
  function CorrectedRiddle(parsed: Riddle, expected: int): (r: Riddle)
    ensures r.riddleNumber == expected
    ensures r.title == parsed.title && r.description == parsed.description && r.solution == parsed.solution
    ensures parsed.riddleNumber == expected ==> r == parsed
  {
    parsed.(riddleNumber := expected)
  }

  /** generateRiddle: asks for riddle number |existingRiddles| + 1 and
      overwrites the number of the parsed answer when it differs. A rejected
      call is passed on unchanged. */
  method GenerateRiddle(concept: Concept, existingRiddles: seq<Riddle>, textModel: RiddleModel)
    returns (result: Result<Riddle, ApiError>)
    ensures var reply := textModel(concept, |existingRiddles| + 1, PreviousRiddleContext(existingRiddles));
            && (reply.Err? ==> result == reply)
            && (reply.Ok? ==> result == Ok(CorrectedRiddle(reply.value, |existingRiddles| + 1)))
    ensures result.Ok? ==> result.value.riddleNumber == |existingRiddles| + 1
  {
    var riddleNumber := |existingRiddles| + 1;
    var previousContext := PreviousRiddleContext(existingRiddles);
    var response := textModel(concept, riddleNumber, previousContext);
    match response {
      case Err(e) =>
        result := Err(e);
      case Ok(parsed) =>
        var newRiddle := parsed;
        if newRiddle.riddleNumber != riddleNumber {
          newRiddle := newRiddle.(riddleNumber := riddleNumber);
        }
        result := Ok(newRiddle);
    }
  }

  /** improveRiddleDescription: the model's answer with surrounding white
      space trimmed; a rejected call is passed on unchanged. */
  function ImproveRiddleDescription(originalDescription: string, textModel: DescriptionModel)
    : (r: Result<string, ApiError>)
    ensures var reply := textModel(originalDescription);
            && (reply.Err? ==> r == reply)
            && (reply.Ok? ==> r.Ok? && Strings.IsTrimOf(r.value, reply.value))
    ensures r.Ok? ==>
              (r.value == [] || (!Strings.IsWhitespace(r.value[0]) && !Strings.IsWhitespace(r.value[|r.value| - 1])))
  {
    var reply := textModel(originalDescription);
    if reply.Err? then Err(reply.error) else Ok(Strings.Trim(reply.value))
  }

  /** The browser's local storage slot that holds the whole store, already
      deserialised; `None` until something has been saved. */
  class Storage {
    var item: Option<StoredData>

    /** Nothing saved yet: the store reads as empty. */
    constructor ()
      ensures item == None
      ensures GetStoredData() == map[]
    {
      item := None;
    }

    /** getStoredData: the saved store, or the empty store when nothing is saved. */
    function GetStoredData(): StoredData
      reads this
    {
      if item.Some? then item.value else map[]
    }

    /** saveStoredData: overwrites the slot with the whole store. */
    method SaveStoredData(data: StoredData)
      modifies this
      ensures item == Some(data)
      ensures GetStoredData() == data
    {
      item := Some(data);
    }
  }
}
