/**
 * The "UrduWriterPrefs" shared-preference file, as key -> sequence stores. The app keeps its
 * two lists there (JSON through Gson in the app; the encoding is not modelled).
 */
module Prefs {

  const CustomBulletsKey: string := "custom_bullets"
  const RecentSymbolsKey: string := "recent_symbols"

  class SharedPreferences {
    /** Keys holding a list of strings (the custom bullets). */
    var stringLists: map<string, seq<string>>
    /** Keys holding a list of (symbol, font name) pairs (the recent symbols). */
    var pairLists: map<string, seq<(string, string)>>

    constructor (strings: map<string, seq<string>>, pairs: map<string, seq<(string, string)>>)
      ensures stringLists == strings && pairLists == pairs
    {
      stringLists := strings;
      pairLists := pairs;
    }
  }
}
