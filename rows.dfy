/**
  Row derivation: the configured identifiers are looked up in the host's state
  snapshot, identifiers without a state are dropped, and every remaining state
  becomes one display row built from fallback chains over its attributes.
*/
module Rows {
  import opened Wrappers
  import opened CardConfig

  /** The attributes the card reads. Text attributes are optional strings (absent and empty are both falsy);
      `planned_time` and `realtime_time` are instants in integer milliseconds, `None` when absent or empty;
      `realtime` and `cancelled` are the truthiness of those attributes. */
  datatype Attributes = Attributes(
    labelText: Option<string>,
    route: Option<string>,
    displayName: Option<string>,
    destination: Option<string>,
    headsign: Option<string>,
    platform: Option<string>,
    plannedTime: Option<int>,
    realtimeTime: Option<int>,
    realtimeTimeLocal: Option<string>,
    realtime: bool,
    timeUntilDeparture: Option<string>,
    cancelled: bool,
    routeColor: Option<string>,
    routeTextColor: Option<string>)

  /** A host state record; a record without an attribute map has every attribute absent. */
  datatype State = State(entityId: string, state: string, attributes: Attributes)

  /** The host's snapshot, read and never written by the card. */
  type States = map<string, State>

  /** One derived departure row; `delay` is in whole minutes. */
  datatype Row = Row(
    id: string,
    labelText: string,
    dest: string,
    platform: string,
    time: string,
    until: string,
    cancelled: bool,
    routeColor: string,
    routeTextColor: string,
    delay: Option<int>)

  const DefaultRouteColor := "#ffffff"
  const DefaultRouteTextColor := "#000000"
  const MillisPerMinute := 60000

  /** `a || b || ... || ''` over optional strings: the first non-empty candidate, else the empty string. */
  function FirstNonEmpty(candidates: seq<Option<string>>): (r: string)
    ensures r == "" <==> forall i :: 0 <= i < |candidates| ==> !Truthy(candidates[i])
    ensures r != "" ==> exists i :: 0 <= i < |candidates| && candidates[i] == Some(r) &&
                                    forall j :: 0 <= j < i ==> !Truthy(candidates[j])
  {
    if candidates == [] then ""
    else if Truthy(candidates[0]) then candidates[0].value
    else
      var r := FirstNonEmpty(candidates[1..]);
      assert forall i :: 1 <= i < |candidates| ==> candidates[1..][i - 1] == candidates[i];
      r
  }

  predicate StartsWithHash(s: string) {
    |s| > 0 && s[0] == '#'
  }

  /** Colour normalisation: a value starting with `#` is kept, another non-empty value gets `#` prepended,
      an absent or empty value gives `fallback`. */
  function NormalizeColor(value: Option<string>, fallback: string): (r: string)
    ensures StartsWithHash(fallback) ==> StartsWithHash(r)
    ensures Truthy(value) ==> StartsWithHash(r) && (r == value.value <==> value.value[0] == '#')
    ensures Truthy(value) && r != value.value ==> r == "#" + value.value
    ensures !Truthy(value) ==> r == fallback
  {
    if Truthy(value) && value.value[0] == '#' then value.value
    else if Truthy(value) then "#" + value.value
    else fallback
  }

  /** `Math.round(delta / 60000)` for a delta in integer milliseconds: halves round towards +infinity,
      which on integers is floor division of `delta + 30000`. */
  function DelayMinutes(deltaMs: int): (m: int)
    ensures MillisPerMinute * m - MillisPerMinute / 2 <= deltaMs < MillisPerMinute * m + MillisPerMinute / 2
  {
    (deltaMs + MillisPerMinute / 2) / MillisPerMinute
  }

  /** The delay of a departure: computed only when both timestamps and the realtime flag are present, and then
      the whole number of minutes nearest to realtime minus planned time, halves rounded up. */
  function Delay(a: Attributes): (d: Option<int>)
    ensures d.Some? <==> a.plannedTime.Some? && a.realtimeTime.Some? && a.realtime
    ensures d.Some? ==>
              MillisPerMinute * d.value - MillisPerMinute / 2
                <= a.realtimeTime.value - a.plannedTime.value
                < MillisPerMinute * d.value + MillisPerMinute / 2
  {
    if a.plannedTime.Some? && a.realtimeTime.Some? && a.realtime
    then Some(DelayMinutes(a.realtimeTime.value - a.plannedTime.value))
    else None
  }

  /** The departure time shown: `realtime_time_local` if non-empty, else the host's locale formatting of a
      non-empty primary value, else the (empty) primary value. */
  function TimeText(st: State, formatTime: string -> string): (t: string)
    ensures Truthy(st.attributes.realtimeTimeLocal) ==> t == st.attributes.realtimeTimeLocal.value
    ensures !Truthy(st.attributes.realtimeTimeLocal) && st.state != "" ==> t == formatTime(st.state)
    ensures !Truthy(st.attributes.realtimeTimeLocal) && st.state == "" ==> t == ""
  {
    if Truthy(st.attributes.realtimeTimeLocal) then st.attributes.realtimeTimeLocal.value
    else if st.state != "" then formatTime(st.state)
    else st.state
  }

  /** The row the card derives from one state record. */
  function DeriveRow(st: State, formatTime: string -> string): (r: Row)
    ensures r.id == st.entityId && r.cancelled == st.attributes.cancelled
    ensures StartsWithHash(r.routeColor) && StartsWithHash(r.routeTextColor)
    ensures r.delay.Some? <==> st.attributes.plannedTime.Some? && st.attributes.realtimeTime.Some? && st.attributes.realtime
  {
    var a := st.attributes;
    Row(
      id := st.entityId,
      labelText := FirstNonEmpty([a.labelText, a.route, a.displayName]),
      dest := FirstNonEmpty([a.destination, a.headsign]),
      platform := FirstNonEmpty([a.platform]),
      time := TimeText(st, formatTime),
      until := FirstNonEmpty([a.timeUntilDeparture]),
      cancelled := a.cancelled,
      routeColor := NormalizeColor(a.routeColor, DefaultRouteColor),
      routeTextColor := NormalizeColor(a.routeTextColor, DefaultRouteTextColor),
      delay := Delay(a))
  }

  /** `map(id => states[id]).filter(Boolean)` on the identifiers: those that have a state, in configured order. */
  function PresentIds(ids: seq<string>, states: States): (p: seq<string>)
    ensures |p| <= |ids|
    ensures forall id :: id in p <==> id in ids && id in states
    ensures forall id :: multiset(p)[id] == if id in states then multiset(ids)[id] else 0
  {
    if ids == [] then []
    else
      var rest := PresentIds(ids[1..], states);
      assert ids == [ids[0]] + ids[1..];
      assert multiset(ids) == multiset{ids[0]} + multiset(ids[1..]);
      if ids[0] in states then [ids[0]] + rest else rest
  }

  /** The rows of one render pass (`map`, `filter(Boolean)`, `map`): one row per configured identifier
      that has a state, in configured order. */
  function DeriveRows(ids: seq<string>, states: States, formatTime: string -> string): (rows: seq<Row>)
    ensures |rows| == |PresentIds(ids, states)|
  {
    if ids == [] then []
    else if ids[0] in states then [DeriveRow(states[ids[0]], formatTime)] + DeriveRows(ids[1..], states, formatTime)
    else DeriveRows(ids[1..], states, formatTime)
  }

  /** The i-th row is derived from the state of the i-th configured identifier that has one. */
  lemma {:induction false} DeriveRowsAt(ids: seq<string>, states: States, formatTime: string -> string, i: nat)
    requires i < |PresentIds(ids, states)|
    ensures PresentIds(ids, states)[i] in states
    ensures DeriveRows(ids, states, formatTime)[i] == DeriveRow(states[PresentIds(ids, states)[i]], formatTime)
  {
    var rest := DeriveRows(ids[1..], states, formatTime);
    if ids[0] in states {
      var head := DeriveRow(states[ids[0]], formatTime);
      assert DeriveRows(ids, states, formatTime) == [head] + rest;
      if i > 0 {
        DeriveRowsAt(ids[1..], states, formatTime, i - 1);
      }
    } else {
      assert DeriveRows(ids, states, formatTime) == rest;
      DeriveRowsAt(ids[1..], states, formatTime, i);
    }
  }

  /** Dropping missing identifiers commutes with splitting the configured list: order is kept. */
  lemma {:induction false} PresentIdsConcat(a: seq<string>, b: seq<string>, states: States)
    ensures PresentIds(a + b, states) == PresentIds(a, states) + PresentIds(b, states)
  {
    if a == [] {
      assert a + b == b;
    } else {
      assert (a + b)[0] == a[0];
      assert (a + b)[1..] == a[1..] + b;
      PresentIdsConcat(a[1..], b, states);
    }
  }

  /** When every configured identifier has a state, nothing is dropped. */
  lemma {:induction false} PresentIdsAllPresent(ids: seq<string>, states: States)
    requires forall i :: 0 <= i < |ids| ==> ids[i] in states
    ensures PresentIds(ids, states) == ids
  {
    if ids != [] {
      PresentIdsAllPresent(ids[1..], states);
    }
  }

  /** There are no rows exactly when no configured identifier has a state. */
  lemma NoRowsIffNonePresent(ids: seq<string>, states: States, formatTime: string -> string)
    ensures DeriveRows(ids, states, formatTime) == [] <==> forall i :: 0 <= i < |ids| ==> ids[i] !in states
  {
  }

  /** The fallback chains of a derived row: label, destination, platform, time and until text, the
      cancelled flag, the two colours (white and black by default, a missing `#` prepended) and the delay. */
  lemma DeriveRowFallbacks(st: State, formatTime: string -> string)
    ensures var a, r := st.attributes, DeriveRow(st, formatTime);
      && (r.labelText == if Truthy(a.labelText) then a.labelText.value
                     else if Truthy(a.route) then a.route.value
                     else if Truthy(a.displayName) then a.displayName.value else "")
      && (r.dest == if Truthy(a.destination) then a.destination.value
                    else if Truthy(a.headsign) then a.headsign.value else "")
      && r.platform == a.platform.GetOr("")
      && r.until == a.timeUntilDeparture.GetOr("")
      && (r.time == if Truthy(a.realtimeTimeLocal) then a.realtimeTimeLocal.value
                    else if st.state != "" then formatTime(st.state) else "")
      && r.id == st.entityId
      && r.cancelled == a.cancelled
      && StartsWithHash(r.routeColor) && StartsWithHash(r.routeTextColor)
      && r.routeColor == NormalizeColor(a.routeColor, DefaultRouteColor)
      && r.routeTextColor == NormalizeColor(a.routeTextColor, DefaultRouteTextColor)
      && (!Truthy(a.routeColor) ==> r.routeColor == "#ffffff")
      && (!Truthy(a.routeTextColor) ==> r.routeTextColor == "#000000")
      && r.delay == Delay(a)
      && (r.delay.Some? <==> a.plannedTime.Some? && a.realtimeTime.Some? && a.realtime)
  {
    var a := st.attributes;
    FirstNonEmptyCons(a.labelText, [a.route, a.displayName]);
    FirstNonEmptyCons(a.route, [a.displayName]);
    FirstNonEmptyCons(a.displayName, []);
    FirstNonEmptyCons(a.destination, [a.headsign]);
    FirstNonEmptyCons(a.headsign, []);
  }

  lemma FirstNonEmptyCons(x: Option<string>, rest: seq<Option<string>>)
    ensures FirstNonEmpty([x] + rest) == if Truthy(x) then x.value else FirstNonEmpty(rest)
  {
    assert ([x] + rest)[1..] == rest;
  }

  /** A realtime departure five minutes behind schedule shows a delay of 5; without the realtime flag there is none. */
  lemma FiveMinutesLate(a: Attributes, t0: int)
    requires a.plannedTime == Some(t0) && a.realtimeTime == Some(t0 + 5 * MillisPerMinute)
    ensures a.realtime ==> Delay(a) == Some(5)
    ensures !a.realtime ==> Delay(a) == None
  {
  }

  /** `DelayMinutes` is the nearest whole minute, halves going up: any integer meeting its bounds is it. */
  lemma DelayMinutesUnique(deltaMs: int, m: int)
    requires MillisPerMinute * m - MillisPerMinute / 2 <= deltaMs < MillisPerMinute * m + MillisPerMinute / 2
    ensures DelayMinutes(deltaMs) == m
  {
  }

  /** Normalising an already normalised colour changes nothing. */
  lemma NormalizeColorIdempotent(value: Option<string>, fallback: string, other: string)
    requires StartsWithHash(fallback)
    ensures NormalizeColor(Some(NormalizeColor(value, fallback)), other) == NormalizeColor(value, fallback)
  {
  }
}
