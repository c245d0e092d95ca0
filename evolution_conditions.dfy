/**
 * The Korean condition text of one evolution (`formatEvolutionConditions`)
 * and the `"<from>-<to>"` keys under which the ingestion service caches it.
 */
module EvolutionConditions {
  import opened Wrappers
  import opened JsText
  import opened LocalizedNames

  /**
   * The fields of a PokeAPI `evolution_details` element the service reads:
   * numbers are `None` when `null`; `item`, `held_item` are the referenced
   * resource's url, `None` when `null`; `time_of_day` is a string, `""`
   * when falsy.
   */
  datatype EvolutionDetail = EvolutionDetail(
    minLevel: Option<int>,
    itemUrl: Option<string>,
    minHappiness: Option<int>,
    heldItemUrl: Option<string>,
    timeOfDay: string,
    triggerUrl: string)

  /** JavaScript truthiness of a nullable number: neither `null` nor `0`. */
  predicate Truthy(n: Option<int>)
  {
    n.Some? && n.value != 0
  }

  const Separator: string := ", "
  const Sentinel: string := "N/A"
  const Daytime: string := "낮에"
  const Nighttime: string := "밤에"

  function LevelClause(level: int): string { "레벨 " + IntToDecimal(level) + " 이상" }
  function ItemClause(itemName: string): string { itemName + " 사용" }
  function HappinessClause(happiness: int): string { "행복도 " + IntToDecimal(happiness) + " 이상" }
  function HeldItemClause(heldItemName: string): string { heldItemName + "를 지닌 상태" }

  /**
   * The `conditions` array `formatEvolutionConditions` fills from one detail:
   * level, item, happiness, held item, time of day, trigger, each only when
   * its field (or, for the trigger, its name) is truthy. `itemName` and
   * `heldItemName` are the looked-up names, present exactly when the detail
   * references that item.
   */
  function Clauses(detail: EvolutionDetail, trigger: string, itemName: Option<string>, heldItemName: Option<string>): (r: seq<string>)
    ensures |r| <= 6
    ensures trigger != "" ==> r != [] && r[|r| - 1] == trigger
  {
    LevelPart(detail) + ItemPart(itemName) + HappinessPart(detail) + HeldItemPart(heldItemName)
    + TimeOfDayPart(detail) + TriggerPart(trigger)
  }

  /** 1 when a clause is present, 0 when it is not. */
  function Present(b: bool): nat { if b then 1 else 0 }

  /** The level clause, when `min_level` is truthy. */
  function LevelPart(detail: EvolutionDetail): (r: seq<string>)
    ensures |r| == Present(Truthy(detail.minLevel))
  {
    if Truthy(detail.minLevel) then [LevelClause(detail.minLevel.value)] else []
  }

  /** The item clause, when the detail names an item. */
  function ItemPart(itemName: Option<string>): (r: seq<string>)
    ensures |r| == Present(itemName.Some?)
  {
    if itemName.Some? then [ItemClause(itemName.value)] else []
  }

  /** The happiness clause, when `min_happiness` is truthy. */
  function HappinessPart(detail: EvolutionDetail): (r: seq<string>)
    ensures |r| == Present(Truthy(detail.minHappiness))
  {
    if Truthy(detail.minHappiness) then [HappinessClause(detail.minHappiness.value)] else []
  }

  /** The held-item clause, when the detail names a held item. */
  function HeldItemPart(heldItemName: Option<string>): (r: seq<string>)
    ensures |r| == Present(heldItemName.Some?)
  {
    if heldItemName.Some? then [HeldItemClause(heldItemName.value)] else []
  }

  /** `낮에` for `"day"`, `밤에` for any other non-empty `time_of_day`. */
  function TimeOfDayPart(detail: EvolutionDetail): (r: seq<string>)
    ensures |r| == Present(detail.timeOfDay != "")
  {
    if detail.timeOfDay != "" then [if detail.timeOfDay == "day" then Daytime else Nighttime] else []
  }

  /** The trigger's name, when it is non-empty. */
  function TriggerPart(trigger: string): (r: seq<string>)
    ensures |r| == Present(trigger != "")
  {
    if trigger != "" then [trigger] else []
  }

  /** The Korean name of the resource at `url`; `None` when the request fails. */
  function NameAt(namesAt: string -> Option<seq<NameEntry>>, url: string): (r: Option<string>)
    ensures r.Some? ==> r.value != ""
  {
    match namesAt(url)
    case Some(names) => Some(FindKoreanName(names))
    case None => None
  }

  /**
   * `formatEvolutionConditions(details)`: `"N/A"` for no details; otherwise
   * the clauses of the first detail joined with `", "`. The trigger name is
   * requested first, then the item's, then the held item's; `None` stands for
   * the exception a failed request raises.
   */
  function ConditionText(details: seq<EvolutionDetail>, namesAt: string -> Option<seq<NameEntry>>): (r: Option<string>)
    ensures details == [] ==> r == Some(Sentinel)
    ensures r.None? ==> && details != []
                        && (|| NameAt(namesAt, details[0].triggerUrl).None?
                            || (details[0].itemUrl.Some? && NameAt(namesAt, details[0].itemUrl.value).None?)
                            || (details[0].heldItemUrl.Some? && NameAt(namesAt, details[0].heldItemUrl.value).None?))
  {
    if details == [] then Some(Sentinel)
    else
      var detail := details[0];
      match NameAt(namesAt, detail.triggerUrl)
      case None => None
      case Some(trigger) =>
        if detail.itemUrl.Some? && NameAt(namesAt, detail.itemUrl.value).None? then None
        else if detail.heldItemUrl.Some? && NameAt(namesAt, detail.heldItemUrl.value).None? then None
        else
          var itemName := if detail.itemUrl.Some? then NameAt(namesAt, detail.itemUrl.value) else None;
          var heldItemName := if detail.heldItemUrl.Some? then NameAt(namesAt, detail.heldItemUrl.value) else None;
          Some(Join(Clauses(detail, trigger, itemName, heldItemName), Separator))
  }

  // ------------------------------------------------------------ properties of the clauses

  /**
   * The trigger name always closes the list, since a looked-up name is never
   * empty; every clause is non-empty.
   */
  lemma TriggerLast(detail: EvolutionDetail, trigger: string, itemName: Option<string>, heldItemName: Option<string>)
    requires trigger != ""
    ensures var c := Clauses(detail, trigger, itemName, heldItemName);
      c != [] && c[|c| - 1] == trigger
    ensures var c := Clauses(detail, trigger, itemName, heldItemName);
      (itemName.Some? ==> itemName.value != "") && (heldItemName.Some? ==> heldItemName.value != "") ==>
        forall i :: 0 <= i < |c| ==> c[i] != ""
  {
  }

  /** Proof step of `ClausePositions`: where the first element of each of six concatenated pieces lands. */
  lemma SixPieces(a: seq<string>, b: seq<string>, c: seq<string>, d: seq<string>, e: seq<string>, f: seq<string>)
    ensures var s := a + b + c + d + e + f;
      && |s| == |a| + |b| + |c| + |d| + |e| + |f|
      && (a != [] ==> s[0] == a[0])
      && (b != [] ==> s[|a|] == b[0])
      && (c != [] ==> s[|a| + |b|] == c[0])
      && (d != [] ==> s[|a| + |b| + |c|] == d[0])
      && (e != [] ==> s[|a| + |b| + |c| + |d|] == e[0])
      && (f != [] ==> s[|a| + |b| + |c| + |d| + |e|] == f[0])
  {
  }

  /**
   * Where each clause sits: level first, then item, happiness, held item,
   * time of day and trigger, each present clause directly after the present
   * ones before it in that order.
   */
  lemma ClausePositions(detail: EvolutionDetail, trigger: string, itemName: Option<string>, heldItemName: Option<string>)
    ensures var c := Clauses(detail, trigger, itemName, heldItemName);
      Truthy(detail.minLevel) ==> c[0] == LevelClause(detail.minLevel.value)
    ensures var c := Clauses(detail, trigger, itemName, heldItemName);
      var at := Present(Truthy(detail.minLevel));
      itemName.Some? ==> at < |c| && c[at] == ItemClause(itemName.value)
    ensures var c := Clauses(detail, trigger, itemName, heldItemName);
      var at := Present(Truthy(detail.minLevel)) + Present(itemName.Some?);
      Truthy(detail.minHappiness) ==> at < |c| && c[at] == HappinessClause(detail.minHappiness.value)
    ensures var c := Clauses(detail, trigger, itemName, heldItemName);
      var at := Present(Truthy(detail.minLevel)) + Present(itemName.Some?) + Present(Truthy(detail.minHappiness));
      heldItemName.Some? ==> at < |c| && c[at] == HeldItemClause(heldItemName.value)
    ensures var c := Clauses(detail, trigger, itemName, heldItemName);
      var at := Present(Truthy(detail.minLevel)) + Present(itemName.Some?) + Present(Truthy(detail.minHappiness))
              + Present(heldItemName.Some?);
      detail.timeOfDay != "" ==> at < |c| && c[at] == (if detail.timeOfDay == "day" then Daytime else Nighttime)
    ensures var c := Clauses(detail, trigger, itemName, heldItemName);
      var at := Present(Truthy(detail.minLevel)) + Present(itemName.Some?) + Present(Truthy(detail.minHappiness))
              + Present(heldItemName.Some?) + Present(detail.timeOfDay != "");
      |c| == at + Present(trigger != "") && (trigger != "" ==> c[at] == trigger)
  {
    SixPieces(LevelPart(detail), ItemPart(itemName), HappinessPart(detail), HeldItemPart(heldItemName),
              TimeOfDayPart(detail), TriggerPart(trigger));
  }

  /**
   * With both a level and a held item, the level clause comes first and the
   * held-item clause after it (after the item and happiness clauses when
   * those are present), and both come before the trigger.
   */
  lemma LevelBeforeHeldItem(detail: EvolutionDetail, trigger: string, itemName: Option<string>, heldName: string)
    requires Truthy(detail.minLevel) && trigger != ""
    ensures var c := Clauses(detail, trigger, itemName, Some(heldName));
      var h := (if itemName.Some? then 2 else 1) + (if Truthy(detail.minHappiness) then 1 else 0);
      && c[0] == LevelClause(detail.minLevel.value)
      && 0 < h < |c| - 1 && c[h] == HeldItemClause(heldName)
  {
    ClausePositions(detail, trigger, itemName, Some(heldName));
  }

  /** One clause per truthy field, plus the trigger. */
  lemma ClauseCount(detail: EvolutionDetail, trigger: string, itemName: Option<string>, heldItemName: Option<string>)
    requires trigger != ""
    ensures |Clauses(detail, trigger, itemName, heldItemName)|
         == (if Truthy(detail.minLevel) then 1 else 0) + (if itemName.Some? then 1 else 0)
          + (if Truthy(detail.minHappiness) then 1 else 0) + (if heldItemName.Some? then 1 else 0)
          + (if detail.timeOfDay != "" then 1 else 0) + 1
  {
  }

  /**
   * The time-of-day clause sits just before the trigger: it is `낮에`
   * exactly when `time_of_day` is `"day"` and `밤에` for any other non-empty
   * value; when `time_of_day` is empty neither word is among the clauses
   * before the trigger.
   */
  lemma TimeOfDayClause(detail: EvolutionDetail, trigger: string, itemName: Option<string>, heldItemName: Option<string>)
    requires trigger != ""
    requires itemName.Some? ==> itemName.value != ""
    requires heldItemName.Some? ==> heldItemName.value != ""
    ensures var c := Clauses(detail, trigger, itemName, heldItemName);
      && (detail.timeOfDay != "" ==> |c| >= 2 && c[|c| - 2] == (if detail.timeOfDay == "day" then Daytime else Nighttime))
      && (detail.timeOfDay == "" ==> Daytime !in c[..|c| - 1] && Nighttime !in c[..|c| - 1])
  {
    var c := Clauses(detail, trigger, itemName, heldItemName);
    if detail.timeOfDay == "" {
      forall i | 0 <= i < |c| - 1
        ensures |c[i]| > 2
      {
      }
    }
  }

  /** A level or happiness of 0 is falsy and yields no clause, exactly like a missing one. */
  lemma ZeroIsOmitted(detail: EvolutionDetail, trigger: string, itemName: Option<string>, heldItemName: Option<string>)
    ensures Clauses(detail.(minLevel := Some(0)), trigger, itemName, heldItemName)
         == Clauses(detail.(minLevel := None), trigger, itemName, heldItemName)
    ensures Clauses(detail.(minHappiness := Some(0)), trigger, itemName, heldItemName)
         == Clauses(detail.(minHappiness := None), trigger, itemName, heldItemName)
  {
    var zeroLevel, noLevel := detail.(minLevel := Some(0)), detail.(minLevel := None);
    assert LevelPart(zeroLevel) == [] == LevelPart(noLevel);
    assert HappinessPart(zeroLevel) == HappinessPart(noLevel) && TimeOfDayPart(zeroLevel) == TimeOfDayPart(noLevel);
    var zeroHappiness, noHappiness := detail.(minHappiness := Some(0)), detail.(minHappiness := None);
    assert HappinessPart(zeroHappiness) == [] == HappinessPart(noHappiness);
    assert LevelPart(zeroHappiness) == LevelPart(noHappiness) && TimeOfDayPart(zeroHappiness) == TimeOfDayPart(noHappiness);
  }

  lemma JoinNonEmpty(parts: seq<string>, sep: string)
    requires parts != [] && forall i :: 0 <= i < |parts| ==> parts[i] != ""
    ensures Join(parts, sep) != ""
  {
  }

  /** The text is never empty: the sentinel, or at least the trigger name. */
  lemma ConditionTextNonEmpty(details: seq<EvolutionDetail>, namesAt: string -> Option<seq<NameEntry>>)
    ensures ConditionText(details, namesAt).Some? ==> ConditionText(details, namesAt).value != ""
  {
    if details != [] && ConditionText(details, namesAt).Some? {
      var detail := details[0];
      var trigger := NameAt(namesAt, detail.triggerUrl).value;
      var itemName := if detail.itemUrl.Some? then NameAt(namesAt, detail.itemUrl.value) else None;
      var heldItemName := if detail.heldItemUrl.Some? then NameAt(namesAt, detail.heldItemUrl.value) else None;
      TriggerLast(detail, trigger, itemName, heldItemName);
      JoinNonEmpty(Clauses(detail, trigger, itemName, heldItemName), Separator);
    }
  }

  /** Only the first detail is read. */
  lemma OnlyFirstDetail(details: seq<EvolutionDetail>, namesAt: string -> Option<seq<NameEntry>>)
    requires details != []
    ensures ConditionText(details, namesAt) == ConditionText([details[0]], namesAt)
  {
  }

  /** A failed trigger lookup fails the whole text, whatever else the detail holds. */
  lemma TriggerFailureFails(details: seq<EvolutionDetail>, namesAt: string -> Option<seq<NameEntry>>)
    requires details != [] && namesAt(details[0].triggerUrl).None?
    ensures ConditionText(details, namesAt).None?
  {
  }

  /** A level-16 evolution by level-up reads "레벨 16 이상, 레벨업": the trigger clause is always appended. */
  lemma LevelSixteenExample(namesAt: string -> Option<seq<NameEntry>>, levelUpUrl: string)
    requires namesAt(levelUpUrl) == Some([NameEntry("ko", map["name" := "레벨업"])])
    ensures ConditionText([EvolutionDetail(Some(16), None, None, None, "", levelUpUrl)], namesAt) == Some("레벨 16 이상, 레벨업")
  {
    var names := [NameEntry("ko", map["name" := "레벨업"])];
    assert FirstIn(names, "ko") == Some(names[0]);
    assert FindKoreanName(names) == "레벨업";
    assert IntToDecimal(16) == "16";
    var detail := EvolutionDetail(Some(16), None, None, None, "", levelUpUrl);
    assert NameAt(namesAt, levelUpUrl) == Some("레벨업");
    assert LevelClause(16) == "레벨 " + "16" + " 이상" == "레벨 16 이상";
    var clauses := Clauses(detail, "레벨업", None, None);
    assert clauses == [LevelClause(16)] + [] + [] + [] + [] + ["레벨업"];
    assert clauses == ["레벨 16 이상", "레벨업"];
    assert clauses[1..] == ["레벨업"];
    assert Join(clauses, Separator) == "레벨 16 이상" + ", " + "레벨업" == "레벨 16 이상, 레벨업";
    assert ConditionText([detail], namesAt) == Some(Join(clauses, Separator));
  }

  // ------------------------------------------------------------ cache keys

  /** `${fromPokemonId}-${toPokemonId}`. */
  function CacheKey(fromId: int, toId: int): string
  {
    IntToDecimal(fromId) + "-" + IntToDecimal(toId)
  }

  /** Distinct id pairs have distinct keys, negative ids included. */
  lemma CacheKeyInjective(a: int, b: int, c: int, d: int)
    requires CacheKey(a, b) == CacheKey(c, d)
    ensures a == c && b == d
  {
    var da, db, dc, dd := IntToDecimal(a), IntToDecimal(b), IntToDecimal(c), IntToDecimal(d);
    var key := CacheKey(a, b);
    assert key == da + "-" + db && key == dc + "-" + dd;
    assert key[|da|] == '-' && key[|dc|] == '-';
    assert forall i :: 1 <= i < |da| ==> key[i] == da[i] && key[i] != '-';
    assert forall i :: 1 <= i < |dc| ==> key[i] == dc[i] && key[i] != '-';
    assert |da| == |dc|;
    assert da == key[..|da|] == dc;
    assert db == key[|da| + 1..] == dd;
    IntToDecimalInjective(a, c);
    IntToDecimalInjective(b, d);
  }
}
