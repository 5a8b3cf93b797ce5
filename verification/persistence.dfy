/** The load-time repair of a saved play-time record in `loadFromStorage`: a record that
    is missing or falsy is replaced by the defaults, any other one is spread over the
    defaults (`{ ...getDefaultRealPlayTime(), ...saved }`). The saved record is a parsed
    JSON value, so the merge is modelled on JSON values. */
module Persistence {
  import opened Wrappers
  import opened Text
  import TrackerSpec

  /** A parsed JSON value (numbers restricted to integers). */
  datatype Json =
    | Null
    | Bool(b: bool)
    | Num(n: int)
    | Str(s: string)
    | Arr(items: seq<Json>)
    | Obj(fields: map<string, Json>)

  /** JavaScript falsiness of a parsed JSON value. */
  predicate Falsy(j: Json) {
    j == Null || j == Bool(false) || j == Num(0) || j == Str("")
  }

  /** `getDefaultRealPlayTime()`. */
  const DefaultRealPlayTime: map<string, Json> := map[
    "today" := Num(0),
    "week" := Num(0),
    "month" := Num(0),
    "timeDiffs" := Arr([]),
    "lastTimePlayed" := Num(0),
    "lastReset" := Obj(map["day" := Null, "week" := Null, "month" := Null]),
    "lastPlaytimeChangeAt" := Null,
    "isInGame" := Bool(false)
  ]

  /** The saved JSON record `j` carries the play-time record `rt`: the same totals, last
      reading and in-game flag, as many history entries, null exactly where a marker or the
      last change time is absent, and the markers' values where they are present. */
  predicate Describes(j: map<string, Json>, rt: TrackerSpec.RealPlayTime) {
    && "today" in j && j["today"] == Num(rt.today)
    && "week" in j && j["week"] == Num(rt.week)
    && "month" in j && j["month"] == Num(rt.month)
    && "lastTimePlayed" in j && j["lastTimePlayed"] == Num(rt.lastTimePlayed)
    && "timeDiffs" in j && j["timeDiffs"].Arr? && |j["timeDiffs"].items| == |rt.timeDiffs|
    && "lastReset" in j && j["lastReset"].Obj? && MarkersDescribe(j["lastReset"].fields, rt.lastReset)
    && "lastPlaytimeChangeAt" in j && (j["lastPlaytimeChangeAt"] == Null <==> rt.lastPlaytimeChangeAt.None?)
    && "isInGame" in j && j["isInGame"] == Bool(rt.isInGame)
  }

  predicate MarkersDescribe(f: map<string, Json>, m: TrackerSpec.ResetMarkers) {
    && "day" in f && (if m.day.Some? then f["day"] == Str(m.day.value) else f["day"] == Null)
    && "week" in f && (if m.week.Some? then f["week"] == Num(m.week.value) else f["week"] == Null)
    && "month" in f && (if m.month.Some? then f["month"] == Num(m.month.value) else f["month"] == Null)
  }

  /** The defaults as saved JSON and as a record agree: the JSON defaults describe the
      record defaults and no other record. */
  lemma DefaultsAgree()
    ensures Describes(DefaultRealPlayTime, TrackerSpec.DefaultRealPlayTime)
    ensures forall rt :: Describes(DefaultRealPlayTime, rt) ==> rt == TrackerSpec.DefaultRealPlayTime
  {
    forall rt | Describes(DefaultRealPlayTime, rt)
      ensures rt == TrackerSpec.DefaultRealPlayTime
    {
      assert rt.timeDiffs == [];
      assert rt.lastReset == TrackerSpec.ResetMarkers(None, None, None);
    }
  }

  /** The own enumerable properties `...xs` contributes for an array: "0", "1", ... */
  function IndexEntries(xs: seq<Json>): (m: map<string, Json>)
    ensures forall i :: 0 <= i < |xs| ==> NatToString(i) in m && m[NatToString(i)] == xs[i]
    ensures forall k :: k in m ==> exists i :: 0 <= i < |xs| && k == NatToString(i)
  {
    IndexNamesDistinct(|xs|);
    map i | 0 <= i < |xs| :: NatToString(i) := xs[i]
  }

  /** Distinct indices have distinct property names. */
  lemma IndexNamesDistinct(n: nat)
    ensures forall i, j :: 0 <= i < n && 0 <= j < n && NatToString(i) == NatToString(j) ==> i == j
  {
    forall i, j | 0 <= i < n && 0 <= j < n && NatToString(i) == NatToString(j)
      ensures i == j
    {
      NatToStringInjective(i, j);
    }
  }

  /** The properties `...v` contributes: an object its fields, an array or a string its
      indexed elements (characters as one-character strings), anything else none. */
  function SpreadEntries(v: Json): map<string, Json> {
    match v
    case Obj(fields) => fields
    case Arr(items) => IndexEntries(items)
    case Str(s) => IndexEntries(seq(|s|, i requires 0 <= i < |s| => Str([s[i]])))
    case _ => map[]
  }

  /** `{ ...defaults, ...saved }`: a property of `saved` wins; a property only in
      `defaults` is kept. */
  function Spread(defaults: map<string, Json>, saved: map<string, Json>): (r: map<string, Json>)
    ensures r.Keys == defaults.Keys + saved.Keys
    ensures forall k :: k in saved ==> r[k] == saved[k]
    ensures forall k :: k in defaults && k !in saved ==> r[k] == defaults[k]
  {
    defaults + saved
  }

  /** `statsData.realPlayTime` after loading, from the saved value (None when the saved
      statistics have no such property). */
  function LoadRealPlayTime(saved: Option<Json>): (r: map<string, Json>)
    ensures DefaultRealPlayTime.Keys <= r.Keys
    ensures saved.None? || Falsy(saved.value) ==> r == DefaultRealPlayTime
    ensures saved.Some? && saved.value.Obj? ==>
              forall k :: k in saved.value.fields ==> k in r && r[k] == saved.value.fields[k]
  {
    if saved.None? || Falsy(saved.value) then DefaultRealPlayTime
    else Spread(DefaultRealPlayTime, SpreadEntries(saved.value))
  }

  /** Loading what was loaded changes nothing: the defaults are filled in once. */
  lemma LoadIdempotent(saved: Option<Json>)
    ensures LoadRealPlayTime(Some(Obj(LoadRealPlayTime(saved)))) == LoadRealPlayTime(saved)
  {
    LoadKeepsCompleteRecord(LoadRealPlayTime(saved));
  }

  /** A saved object that already has every default property comes back unchanged. */
  lemma LoadKeepsCompleteRecord(fields: map<string, Json>)
    requires DefaultRealPlayTime.Keys <= fields.Keys
    ensures LoadRealPlayTime(Some(Obj(fields))) == fields
  {
    assert Spread(DefaultRealPlayTime, fields) == fields;
  }

  /** A saved object keeps every property it has, even unknown ones, and gains exactly the
      default properties it lacks. */
  lemma LoadFillsMissing(fields: map<string, Json>)
    ensures var r := LoadRealPlayTime(Some(Obj(fields)));
            && r.Keys == DefaultRealPlayTime.Keys + fields.Keys
            && forall k :: k in DefaultRealPlayTime && k !in fields ==> r[k] == DefaultRealPlayTime[k]
  {
    assert !Falsy(Obj(fields));
  }

  /** The merge is shallow: a saved `lastReset` holding only a day marker stays without
      week and month markers; they are not taken from the default `lastReset`. */
  lemma LoadIsShallow(fields: map<string, Json>, day: string)
    requires fields == map["lastReset" := Obj(map["day" := Str(day)])]
    ensures var r := LoadRealPlayTime(Some(Obj(fields)));
            && r["lastReset"] == Obj(map["day" := Str(day)])
            && "week" !in r["lastReset"].fields
            && r["today"] == Num(0)
  {
    assert !Falsy(Obj(fields));
    assert "today" !in fields;
  }
}
