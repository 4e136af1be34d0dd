/** The records the application passes around: a theme, a riddle, the
    persisted store, and the error a rejected call to the generative
    service carries. */
module Types {
  import opened Wrappers
  import Strings

  /** A selectable theme. Its icon is a rendering reference and is not modelled. */
  datatype Concept = Concept(id: int, title: string, description: string)

  /** One generated riddle. JavaScript numbers are modelled as integers. */
  datatype Riddle = Riddle(riddleNumber: int, title: string, description: string, solution: string)

  /** The persisted document: theme key to that theme's riddle history. */
  type StoredData = map<string, seq<Riddle>>

  /** A rejected call: its `message` property (absent for a thrown value
      that is not an Error) and its JSON serialisation. */
  datatype ApiError = ApiError(message: Option<string>, serialized: string)

  /** JavaScript stores a numeric property key under its decimal rendering. */
  function ThemeKey(id: int): string {
    Strings.IntToString(id)
  }

  /** Distinct themes never share a slot of the store. */
  lemma ThemeKeyInjective(a: int, b: int)
    ensures ThemeKey(a) == ThemeKey(b) ==> a == b
  {
    Strings.IntToStringInjective(a, b);
  }

  /** `data[id] || []`: a theme's stored history, or the empty one. */
  function StoredHistory(data: StoredData, id: int): seq<Riddle> {
    if ThemeKey(id) in data then data[ThemeKey(id)] else []
  }

  /** An empty store holds the empty history for every theme, and a theme's
      history reads back as what was last written for it. */
  lemma StoredHistoryReadsBack(data: StoredData, id: int, history: seq<Riddle>)
    ensures StoredHistory(map[], id) == []
    ensures StoredHistory(data[ThemeKey(id) := history], id) == history
  {
  }
}
