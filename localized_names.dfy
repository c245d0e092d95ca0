/**
 * The localisation helpers of the PokeAPI ingestion service: the Korean
 * (then English, then sentinel) name of a resource, the Korean flavour text
 * of a species, and the names of a list of resources fetched one by one.
 */
module LocalizedNames {
  import opened Wrappers

  /**
   * One element of a PokeAPI `names` or `genera` array: the language name and
   * the string fields of the entry (`name`, `genus`, ...); a field missing from
   * the map is `undefined`.
   */
  datatype NameEntry = NameEntry(language: string, fields: map<string, string>)

  /** One element of `flavor_text_entries`. */
  datatype FlavorEntry = FlavorEntry(language: string, flavorText: string)

  /** A `{ name, url }` reference to another resource. */
  datatype NamedResource = NamedResource(name: string, url: string)

  /** `names.find(n => n.language.name === language)`. */
  function FirstIn(names: seq<NameEntry>, language: string): Option<NameEntry>
  {
    if names == [] then None
    else if names[0].language == language then Some(names[0])
    else FirstIn(names[1..], language)
  }

  /**
   * `find` succeeds exactly when some entry has the language, and then
   * returns an entry in that language before which no entry has it.
   */
  lemma {:induction false} FirstInFinds(names: seq<NameEntry>, language: string)
    ensures FirstIn(names, language).Some? <==> exists i :: 0 <= i < |names| && names[i].language == language
    ensures FirstIn(names, language).Some? ==>
              exists i :: 0 <= i < |names| && names[i] == FirstIn(names, language).value && names[i].language == language &&
                          forall j :: 0 <= j < i ==> names[j].language != language
  {
    if names != [] && names[0].language != language {
      var tail := names[1..];
      FirstInFinds(tail, language);
      assert forall i :: 1 <= i < |names| ==> names[i] == tail[i - 1];
      if FirstIn(tail, language).Some? {
        var i :| 0 <= i < |tail| && tail[i] == FirstIn(tail, language).value && tail[i].language == language &&
                 forall j :: 0 <= j < i ==> tail[j].language != language;
        assert names[i + 1] == tail[i];
      }
    }
  }

  /** The entry `find` returns is the one before which no entry has that language. */
  lemma FirstInAt(names: seq<NameEntry>, language: string, i: nat)
    requires i < |names| && names[i].language == language
    requires forall j :: 0 <= j < i ==> names[j].language != language
    ensures FirstIn(names, language) == Some(names[i])
  {
    FirstInFinds(names, language);
    var first := FirstIn(names, language);
    var k :| 0 <= k < |names| && names[k] == first.value && names[k].language == language &&
             forall j :: 0 <= j < k ==> names[j].language != language;
    assert !(k < i) && !(i < k);
  }

  /** `entry?.[key]`, with `undefined` as the empty string (both are falsy). */
  function FieldOf(entry: Option<NameEntry>, key: string): string
  {
    match entry
    case Some(e) => if key in e.fields then e.fields[key] else ""
    case None => ""
  }

  /**
   * `findKoreanName(names, key)`: the `key` field of the first Korean entry
   * when it is non-empty, else that of the first English entry when it is
   * non-empty, else the sentinel `"N/A"`. The result is never empty, and it
   * is the sentinel or some Korean or English entry's field.
   */
  function FindKoreanName(names: seq<NameEntry>, key: string := "name"): (r: string)
    ensures r != ""
  {
    var korean := FieldOf(FirstIn(names, "ko"), key);
    var english := FieldOf(FirstIn(names, "en"), key);
    if korean != "" then korean else if english != "" then english else "N/A"
  }

  /** The name is the sentinel or the `key` field of some Korean or English entry. */
  lemma KoreanNameOrigin(names: seq<NameEntry>, key: string)
    ensures var r := FindKoreanName(names, key);
      r == "N/A" || exists i :: 0 <= i < |names| && names[i].language in {"ko", "en"} &&
                                key in names[i].fields && names[i].fields[key] == r
  {
    FirstInFinds(names, "ko");
    FirstInFinds(names, "en");
  }

  /** A usable Korean field wins, wherever the English entries stand. */
  lemma KoreanFirst(names: seq<NameEntry>, key: string, i: nat)
    requires i < |names| && names[i].language == "ko"
    requires forall j :: 0 <= j < i ==> names[j].language != "ko"
    requires key in names[i].fields && names[i].fields[key] != ""
    ensures FindKoreanName(names, key) == names[i].fields[key]
  {
    FirstInAt(names, "ko", i);
  }

  /**
   * Only the first Korean entry is consulted: when it is missing, or its
   * field is missing or empty, the first English entry's field is used if it
   * is non-empty, even when a later Korean entry has one.
   */
  lemma EnglishFallback(names: seq<NameEntry>, key: string, i: nat)
    requires FieldOf(FirstIn(names, "ko"), key) == ""
    requires i < |names| && names[i].language == "en"
    requires forall j :: 0 <= j < i ==> names[j].language != "en"
    requires key in names[i].fields && names[i].fields[key] != ""
    ensures FindKoreanName(names, key) == names[i].fields[key]
  {
    FirstInAt(names, "en", i);
  }

  /** A first Korean entry with an empty field hides a later, usable Korean entry. */
  lemma FirstKoreanEntryOnly(later: string)
    requires later != ""
    ensures FindKoreanName([NameEntry("ko", map["name" := ""]), NameEntry("ko", map["name" := later])]) == "N/A"
  {
    var names := [NameEntry("ko", map["name" := ""]), NameEntry("ko", map["name" := later])];
    assert FirstIn(names, "ko") == Some(names[0]);
    assert FirstIn(names, "en") == None by {
      assert FirstIn(names[1..], "en") == FirstIn([], "en");
    }
  }

  /**
   * When the first Korean entry and the first English entry are each
   * missing, or lack the field, or hold it empty, the result is the sentinel.
   */
  lemma BothEmptyGiveSentinel(names: seq<NameEntry>, key: string)
    requires FieldOf(FirstIn(names, "ko"), key) == "" && FieldOf(FirstIn(names, "en"), key) == ""
    ensures FindKoreanName(names, key) == "N/A"
  {
  }

  /** Entries in both languages whose names are empty still give the sentinel. */
  lemma EmptyNamesGiveSentinel()
    ensures FindKoreanName([NameEntry("ko", map["name" := ""]), NameEntry("en", map["name" := ""])]) == "N/A"
  {
    var names := [NameEntry("ko", map["name" := ""]), NameEntry("en", map["name" := ""])];
    assert FirstIn(names, "ko") == Some(names[0]);
    assert FirstIn(names, "en") == Some(names[1]);
    BothEmptyGiveSentinel(names, "name");
  }

  /** With neither a Korean nor an English entry the result is the sentinel. */
  lemma NoKoreanNoEnglish(names: seq<NameEntry>, key: string)
    requires forall i :: 0 <= i < |names| ==> names[i].language != "ko" && names[i].language != "en"
    ensures FindKoreanName(names, key) == "N/A"
  {
    FirstInFinds(names, "ko");
    FirstInFinds(names, "en");
    BothEmptyGiveSentinel(names, key);
  }

  // ------------------------------------------------------------ flavour text

  /** `entries.filter(e => e.language.name === language).pop()`: the last entry in that language. */
  function LastIn(entries: seq<FlavorEntry>, language: string): Option<FlavorEntry>
  {
    if entries == [] then None
    else if entries[|entries| - 1].language == language then Some(entries[|entries| - 1])
    else LastIn(entries[..|entries| - 1], language)
  }

  /**
   * The filter's last element exists exactly when some entry has the
   * language, and then it is an entry in that language after which no entry
   * has it.
   */
  lemma {:induction false} LastInFinds(entries: seq<FlavorEntry>, language: string)
    ensures LastIn(entries, language).Some? <==> exists i :: 0 <= i < |entries| && entries[i].language == language
    ensures LastIn(entries, language).Some? ==>
              exists i :: 0 <= i < |entries| && entries[i] == LastIn(entries, language).value && entries[i].language == language &&
                          forall j :: i < j < |entries| ==> entries[j].language != language
  {
    if entries != [] {
      var n := |entries| - 1;
      if entries[n].language != language {
        var init := entries[..n];
        LastInFinds(init, language);
        assert LastIn(entries, language) == LastIn(init, language);
        if LastIn(init, language).Some? {
          var i :| 0 <= i < |init| && init[i] == LastIn(init, language).value && init[i].language == language &&
                   forall j :: i < j < |init| ==> init[j].language != language;
          forall j | i < j < |entries|
            ensures entries[j].language != language
          {
            if j < n {
              assert entries[j] == init[j];
            }
          }
          assert entries[i] == init[i];
        } else {
          forall i | 0 <= i < |entries|
            ensures entries[i].language != language
          {
            if i < n {
              assert entries[i] == init[i];
            }
          }
        }
      }
    }
  }

  /** `text.replace(/[\n\f]/g, ' ')`. */
  function ReplaceLineBreaks(text: string): (r: string)
    ensures |r| == |text|
    ensures forall i :: 0 <= i < |r| ==> r[i] == (if text[i] == '\n' || text[i] == '\U{000C}' then ' ' else text[i])
  {
    if text == [] then []
    else [if text[0] == '\n' || text[0] == '\U{000C}' then ' ' else text[0]] + ReplaceLineBreaks(text[1..])
  }

  lemma ReplaceLineBreaksRemovesThem(text: string)
    ensures '\n' !in ReplaceLineBreaks(text) && '\U{000C}' !in ReplaceLineBreaks(text)
  {
    var r := ReplaceLineBreaks(text);
    forall i | 0 <= i < |r| ensures r[i] != '\n' && r[i] != '\U{000C}' { }
  }

  lemma ReplaceLineBreaksIdempotent(text: string)
    ensures ReplaceLineBreaks(ReplaceLineBreaks(text)) == ReplaceLineBreaks(text)
  {
  }

  /**
   * `findKoreanFlavorText(entries)`: the flavour text of the last Korean
   * entry with its line and form feeds turned into spaces, or the empty
   * string when there is no Korean entry.
   */
  function FindKoreanFlavorText(entries: seq<FlavorEntry>): (r: string)
    ensures '\n' !in r && '\U{000C}' !in r
    ensures (forall i :: 0 <= i < |entries| ==> entries[i].language != "ko") ==> r == ""
  {
    LastInFinds(entries, "ko");
    match LastIn(entries, "ko")
    case Some(entry) =>
      ReplaceLineBreaksRemovesThem(entry.flavorText);
      ReplaceLineBreaks(entry.flavorText)
    case None => ""
  }

  /** A Korean entry appended at the end replaces whatever the earlier entries gave. */
  lemma LastKoreanEntryWins(entries: seq<FlavorEntry>, text: string)
    ensures FindKoreanFlavorText(entries + [FlavorEntry("ko", text)]) == ReplaceLineBreaks(text)
  {
  }

  /** Entries in other languages appended at the end change nothing. */
  lemma OtherLanguagesIgnored(entries: seq<FlavorEntry>, other: FlavorEntry)
    requires other.language != "ko"
    ensures FindKoreanFlavorText(entries + [other]) == FindKoreanFlavorText(entries)
  {
    var all := entries + [other];
    assert all[..|all| - 1] == entries;
  }

  // ------------------------------------------------------------ names of several resources

  /**
   * `getKoreanNames(items)`: for each referenced resource, its Korean name
   * when the request for it succeeds, else the reference's own raw name;
   * `namesAt(url)` is the `names` array the resource at `url` serves, `None`
   * when the request fails.
   */
  function GetKoreanNames(items: seq<NamedResource>, namesAt: string -> Option<seq<NameEntry>>): (r: seq<string>)
    ensures |r| == |items|
  {
    if items == [] then []
    else
      var head := match namesAt(items[0].url)
                  case Some(names) => FindKoreanName(names)
                  case None => items[0].name;
      [head] + GetKoreanNames(items[1..], namesAt)
  }

  /**
   * Each name is the Korean name of its resource when the request for it
   * succeeds, else the reference's own raw name, in the order of the items.
   */
  lemma {:induction false} KoreanNameOfEach(items: seq<NamedResource>, namesAt: string -> Option<seq<NameEntry>>)
    ensures forall i :: 0 <= i < |items| ==>
              GetKoreanNames(items, namesAt)[i]
              == if namesAt(items[i].url).Some? then FindKoreanName(namesAt(items[i].url).value) else items[i].name
  {
    if items != [] {
      KoreanNameOfEach(items[1..], namesAt);
      var r := GetKoreanNames(items, namesAt);
      assert forall i :: 1 <= i < |items| ==> r[i] == GetKoreanNames(items[1..], namesAt)[i - 1] && items[i] == items[1..][i - 1];
    }
  }

  /** A failed lookup never makes a name empty unless the raw name was. */
  lemma KoreanNamesNonEmpty(items: seq<NamedResource>, namesAt: string -> Option<seq<NameEntry>>)
    requires forall i :: 0 <= i < |items| ==> items[i].name != ""
    ensures forall i :: 0 <= i < |items| ==> GetKoreanNames(items, namesAt)[i] != ""
  {
    KoreanNameOfEach(items, namesAt);
  }
}
