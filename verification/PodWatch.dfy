/** Watching the pods of a namespace (`WatchPods`): which callbacks fire, for whom, and in which
    order. */
module PodWatch {
  import opened Options

  /** `running` says that the phase is `PodRunning`; `containers` holds the ready flags. */
  datatype Pod = Pod(name: string, running: bool, containers: seq<bool>)

  datatype Kind = Added | Modified | Deleted | Other

  /** An event of the watch; `about` is its object, `None` when it is not a pod. */
  datatype Event = Event(kind: Kind, about: Option<Pod>)

  /** `None` is the nil pattern, which selects everything. */
  type Pattern = Option<string -> bool>

  predicate Selects(pattern: Pattern, name: string) {
    pattern.Some? ==> pattern.value(name)
  }

  predicate Ready(pod: Pod) {
    pod.running && pod.containers != [] && false !in pod.containers
  }

  /** A change worth a callback: `onAvailable(pod)` or `onUnavailable(pod)`. */
  datatype Notice = Notice(pod: Pod, available: bool)

  /** `ready` is `podReadyMap`, whose missing entries read as false. */
  datatype Watch = Watch(ready: map<string, bool>, notices: seq<Notice>)
  {
    predicate Up(name: string) { name in ready && ready[name] }

    function Set(pod: Pod, up: bool): Watch {
      this.(ready := ready[pod.name := up])
    }

    function Notify(pod: Pod, available: bool): Watch {
      this.(notices := notices + [Notice(pod, available)])
    }
  }

  // ---------------------------------------------------------------------------------------
  // What the loops do
  // ---------------------------------------------------------------------------------------

  /** The first `n` items that the pattern selects. */
  function Selected(pattern: Pattern, items: seq<Pod>, n: nat): seq<Pod>
    requires n <= |items|
  {
    if n == 0 then [] else
      Selected(pattern, items, n - 1)
        + (if Selects(pattern, items[n - 1].name) then [items[n - 1]] else [])
  }

  function List(w: Watch, pod: Pod): Watch {
    if Ready(pod) then w.Set(pod, true).Notify(pod, true) else w.Set(pod, false)
  }

  function Listed(pods: seq<Pod>, n: nat): Watch
    requires n <= |pods|
  {
    if n == 0 then Watch(map[], []) else List(Listed(pods, n - 1), pods[n - 1])
  }

  /** What an event says about its pod, if anything: added pods are not looked at. */
  function Reading(pattern: Pattern, e: Event): Option<bool> {
    if e.about.None? || !Selects(pattern, e.about.value.name) then None
    else match e.kind
      case Modified => Some(Ready(e.about.value))
      case Deleted => Some(false)
      case _ => None
  }

  function Handle(pattern: Pattern, w: Watch, e: Event): Watch {
    if Reading(pattern, e).None? then w
    else
      var pod, up := e.about.value, Reading(pattern, e).value;
      (if w.Up(pod.name) != up then w.Notify(pod, up) else w).Set(pod, up)
  }

  function Handled(pattern: Pattern, w: Watch, events: seq<Event>, n: nat): Watch
    requires n <= |events|
  {
    if n == 0 then w else Handle(pattern, Handled(pattern, w, events, n - 1), events[n - 1])
  }

  /** The whole watch: first the pods listed, then the events. */
  function Watched(pattern: Pattern, items: seq<Pod>, events: seq<Event>): Watch {
    var pods := Selected(pattern, items, |items|);
    Handled(pattern, Listed(pods, |pods|), events, |events|)
  }

  /** The notices for which a callback is given. */
  function Heard(onAvailable: bool, onUnavailable: bool, notices: seq<Notice>): seq<Notice> {
    if notices == [] then []
    else
      var last := notices[|notices| - 1];
      Heard(onAvailable, onUnavailable, notices[..|notices| - 1])
        + (if (if last.available then onAvailable else onUnavailable) then [last] else [])
  }

  lemma HeardNext(onAvailable: bool, onUnavailable: bool, notices: seq<Notice>, next: Notice)
    ensures Heard(onAvailable, onUnavailable, notices + [next])
         == Heard(onAvailable, onUnavailable, notices)
            + (if (if next.available then onAvailable else onUnavailable) then [next] else [])
  {
    assert (notices + [next])[..|notices|] == notices;
  }

  // ---------------------------------------------------------------------------------------
  // The code
  // ---------------------------------------------------------------------------------------

  method IsPodReady(pod: Pod) returns (ready: bool)
    ensures ready == Ready(pod)
  {
    if !pod.running { return false; }
    if |pod.containers| == 0 { return false; }
    for i := 0 to |pod.containers|
      invariant false !in pod.containers[..i]
    {
      if !pod.containers[i] { return false; }
    }
    assert pod.containers[..|pod.containers|] == pod.containers;
    return true;
  }

  method Filter(pattern: Pattern, items: seq<Pod>) returns (result: seq<Pod>)
    ensures result == Selected(pattern, items, |items|)
  {
    if pattern.None? {
      SelectedAll(pattern, items, |items|);
      assert items[..|items|] == items;
      return items;
    }
    result := [];
    for i := 0 to |items|
      invariant result == Selected(pattern, items, i)
    {
      if pattern.value(items[i].name) { result := result + [items[i]]; }
    }
  }

  lemma {:induction false} SelectedAll(pattern: Pattern, items: seq<Pod>, n: nat)
    requires n <= |items| && pattern.None?
    ensures Selected(pattern, items, n) == items[..n]
  {
    if n > 0 { SelectedAll(pattern, items, n - 1); }
  }

  /** The listing and the event loop. `events` are those received before the context is done or
      the channel is closed; `calls` are the callbacks made, in order. */
  method WatchPods(pattern: Pattern, onAvailable: bool, onUnavailable: bool,
                   items: seq<Pod>, events: seq<Event>)
    returns (calls: seq<Notice>, podReadyMap: map<string, bool>)
    ensures podReadyMap == Watched(pattern, items, events).ready
    ensures calls == Heard(onAvailable, onUnavailable, Watched(pattern, items, events).notices)
  {
    var pods := Filter(pattern, items);
    podReadyMap, calls := map[], [];
    for i := 0 to |pods|
      invariant podReadyMap == Listed(pods, i).ready
      invariant calls == Heard(onAvailable, onUnavailable, Listed(pods, i).notices)
    {
      var pod := pods[i];
      HeardNext(onAvailable, onUnavailable, Listed(pods, i).notices, Notice(pod, true));
      var ready := IsPodReady(pod);
      podReadyMap := podReadyMap[pod.name := ready];
      if ready {
        if onAvailable { calls := calls + [Notice(pod, true)]; }
      }
    }
    ghost var w := Listed(pods, |pods|);
    for i := 0 to |events|
      invariant podReadyMap == Handled(pattern, w, events, i).ready
      invariant calls == Heard(onAvailable, onUnavailable, Handled(pattern, w, events, i).notices)
    {
      ghost var before := Handled(pattern, w, events, i);
      var more;
      more, podReadyMap :=
        OnEvent(pattern, onAvailable, onUnavailable, events[i], podReadyMap, before);
      calls := calls + more;
    }
  }

  /** One turn of the event loop. */
  method OnEvent(pattern: Pattern, onAvailable: bool, onUnavailable: bool, event: Event,
                 readyMap: map<string, bool>, ghost w: Watch)
    returns (calls: seq<Notice>, podReadyMap: map<string, bool>)
    requires readyMap == w.ready
    ensures podReadyMap == Handle(pattern, w, event).ready
    ensures Heard(onAvailable, onUnavailable, w.notices) + calls
         == Heard(onAvailable, onUnavailable, Handle(pattern, w, event).notices)
  {
    podReadyMap, calls := readyMap, [];
    if event.about.None? { return; }
    var pod := event.about.value;
    if pattern.Some? && !pattern.value(pod.name) { return; }
    match event.kind
    case Modified =>
      var current := pod.name in podReadyMap && podReadyMap[pod.name];
      var ready := IsPodReady(pod);
      if current != ready {
        HeardNext(onAvailable, onUnavailable, w.notices, Notice(pod, ready));
        if ready {
          if onAvailable { calls := [Notice(pod, true)]; }
        } else {
          if onUnavailable { calls := [Notice(pod, false)]; }
        }
      }
      podReadyMap := podReadyMap[pod.name := ready];
    case Deleted =>
      var current := pod.name in podReadyMap && podReadyMap[pod.name];
      if current {
        HeardNext(onAvailable, onUnavailable, w.notices, Notice(pod, false));
        if onUnavailable { calls := [Notice(pod, false)]; }
      }
      podReadyMap := podReadyMap[pod.name := false];
    case _ =>
  }

  // ---------------------------------------------------------------------------------------
  // One pod at a time: the notices are the edges of what is read about it
  // ---------------------------------------------------------------------------------------

  /** The notices about one name. */
  function Of(notices: seq<Notice>, name: string): seq<bool> {
    if notices == [] then []
    else
      var last := notices[|notices| - 1];
      Of(notices[..|notices| - 1], name) + (if last.pod.name == name then [last.available] else [])
  }

  lemma OfNext(notices: seq<Notice>, next: Notice, name: string)
    ensures Of(notices + [next], name)
         == Of(notices, name) + (if next.pod.name == name then [next.available] else [])
  {
    assert (notices + [next])[..|notices|] == notices;
  }

  /** What the first `n` listed items say about a name. */
  function Listings(items: seq<Pod>, name: string, n: nat): seq<bool>
    requires n <= |items|
  {
    if n == 0 then [] else
      Listings(items, name, n - 1)
        + (if items[n - 1].name == name then [Ready(items[n - 1])] else [])
  }

  /** What an event says about a name, if anything. */
  function ReadingOf(pattern: Pattern, e: Event, name: string): Option<bool> {
    var r := Reading(pattern, e);
    if r.Some? && e.about.value.name == name then r else None
  }

  /** What the first `n` events say about a name. */
  function Reports(pattern: Pattern, events: seq<Event>, name: string, n: nat): seq<bool>
    requires n <= |events|
  {
    if n == 0 then [] else
      var r := ReadingOf(pattern, events[n - 1], name);
      Reports(pattern, events, name, n - 1) + (if r.Some? then [r.value] else [])
  }

  /** Everything that is read about a name. */
  function History(pattern: Pattern, items: seq<Pod>, events: seq<Event>, name: string): seq<bool> {
    (if Selects(pattern, name) then Listings(items, name, |items|) else [])
      + Reports(pattern, events, name, |events|)
  }

  /** The last reading, or the level before the first. */
  predicate Level(from: bool, readings: seq<bool>) {
    if readings == [] then from else readings[|readings| - 1]
  }

  /** The readings that differ from the one before. */
  function Edges(from: bool, readings: seq<bool>): seq<bool> {
    if readings == [] then []
    else
      var before, last := readings[..|readings| - 1], readings[|readings| - 1];
      Edges(from, before) + (if last != Level(from, before) then [last] else [])
  }

  lemma EdgesNext(from: bool, readings: seq<bool>, next: bool)
    ensures Edges(from, readings + [next])
         == Edges(from, readings) + (if next != Level(from, readings) then [next] else [])
  {
    assert (readings + [next])[..|readings|] == readings;
  }

  lemma {:induction false} EdgesConcat(from: bool, first: seq<bool>, second: seq<bool>)
    ensures Edges(from, first + second)
         == Edges(from, first) + Edges(Level(from, first), second)
    ensures Level(from, first + second) == Level(Level(from, first), second)
  {
    if second == [] {
      assert first + second == first;
    } else {
      var before, last := second[..|second| - 1], second[|second| - 1];
      EdgesConcat(from, first, before);
      assert first + second == (first + before) + [last];
      EdgesNext(from, first + before, last);
    }
  }

  /** The true readings: listing notifies each of them. */
  function Trues(readings: seq<bool>): seq<bool> {
    if readings == [] then [] else
      Trues(readings[..|readings| - 1]) + (if readings[|readings| - 1] then [true] else [])
  }

  lemma TruesNext(readings: seq<bool>, next: bool)
    ensures Trues(readings + [next]) == Trues(readings) + (if next then [true] else [])
  {
    assert (readings + [next])[..|readings|] == readings;
  }

  lemma {:induction false} ListedOf(pods: seq<Pod>, name: string, n: nat)
    requires n <= |pods|
    ensures Of(Listed(pods, n).notices, name) == Trues(Listings(pods, name, n))
    ensures Listed(pods, n).Up(name) == Level(false, Listings(pods, name, n))
  {
    if n > 0 {
      var pod := pods[n - 1];
      ListedOf(pods, name, n - 1);
      ListOf(Listed(pods, n - 1), pod, name);
      if pod.name == name {
        TruesNext(Listings(pods, name, n - 1), Ready(pod));
      } else {
        assert Listings(pods, name, n) == Listings(pods, name, n - 1);
      }
    }
  }

  lemma ListOf(w: Watch, pod: Pod, name: string)
    ensures Of(List(w, pod).notices, name)
         == Of(w.notices, name) + (if pod.name == name && Ready(pod) then [true] else [])
    ensures List(w, pod).Up(name) == if pod.name == name then Ready(pod) else w.Up(name)
  {
    OfNext(w.notices, Notice(pod, true), name);
  }

  /** Since `w`, the notices of `h` about a name are the edges of the first `n` events. */
  predicate Tracks(pattern: Pattern, w: Watch, events: seq<Event>, name: string, n: nat, h: Watch)
    requires n <= |events|
  {
    var reports := Reports(pattern, events, name, n);
    && Of(h.notices, name) == Of(w.notices, name) + Edges(w.Up(name), reports)
    && h.Up(name) == Level(w.Up(name), reports)
  }

  lemma TracksNext(pattern: Pattern, w: Watch, events: seq<Event>, name: string, n: nat, h: Watch)
    requires 0 < n <= |events| && Tracks(pattern, w, events, name, n - 1, h)
    ensures Tracks(pattern, w, events, name, n, Handle(pattern, h, events[n - 1]))
  {
    var r := ReadingOf(pattern, events[n - 1], name);
    var before := Reports(pattern, events, name, n - 1);
    ReportsNext(pattern, events, name, n, w.Up(name));
    HandleOf(pattern, h, events[n - 1], name);
    Regroup(Of(w.notices, name), Edges(w.Up(name), before), Edge(h.Up(name), r));
  }

  lemma Regroup(a: seq<bool>, b: seq<bool>, c: seq<bool>)
    ensures (a + b) + c == a + (b + c)
  {
  }

  lemma {:induction false} HandledOf(pattern: Pattern, w: Watch, events: seq<Event>,
                                     name: string, n: nat)
    requires n <= |events|
    ensures Tracks(pattern, w, events, name, n, Handled(pattern, w, events, n))
  {
    if n > 0 {
      HandledOf(pattern, w, events, name, n - 1);
      TracksNext(pattern, w, events, name, n, Handled(pattern, w, events, n - 1));
    }
  }

  /** The edge that a reading makes, and the level it leaves. */
  function Edge(level: bool, r: Option<bool>): seq<bool> {
    if r.Some? && r.value != level then [r.value] else []
  }

  predicate Moved(level: bool, r: Option<bool>) {
    if r.Some? then r.value else level
  }

  lemma ReportsNext(pattern: Pattern, events: seq<Event>, name: string, n: nat, from: bool)
    requires 0 < n <= |events|
    ensures var before := Reports(pattern, events, name, n - 1);
      var after := Reports(pattern, events, name, n);
      var r := ReadingOf(pattern, events[n - 1], name);
      && Edges(from, after) == Edges(from, before) + Edge(Level(from, before), r)
      && Level(from, after) == Moved(Level(from, before), r)
  {
    var before := Reports(pattern, events, name, n - 1);
    var r := ReadingOf(pattern, events[n - 1], name);
    if r.Some? {
      EdgesNext(from, before, r.value);
    } else {
      assert Reports(pattern, events, name, n) == before;
    }
  }

  lemma HandleOf(pattern: Pattern, w: Watch, e: Event, name: string)
    ensures var r := ReadingOf(pattern, e, name);
      var after := Handle(pattern, w, e);
      && Of(after.notices, name) == Of(w.notices, name) + Edge(w.Up(name), r)
      && after.Up(name) == Moved(w.Up(name), r)
  {
    var r := Reading(pattern, e);
    if r.Some? { OfNext(w.notices, Notice(e.about.value, r.value), name); }
  }

  lemma {:induction false} ListingsOfSelected(pattern: Pattern, items: seq<Pod>, name: string, n: nat)
    requires n <= |items|
    ensures var pods := Selected(pattern, items, n);
      Listings(pods, name, |pods|)
        == if Selects(pattern, name) then Listings(items, name, n) else []
  {
    if n > 0 {
      ListingsOfSelected(pattern, items, name, n - 1);
      SelectedNext(pattern, items, name, n);
    }
  }

  lemma SelectedNext(pattern: Pattern, items: seq<Pod>, name: string, n: nat)
    requires 0 < n <= |items|
    ensures var before, after := Selected(pattern, items, n - 1), Selected(pattern, items, n);
      var last := items[n - 1];
      Listings(after, name, |after|)
        == Listings(before, name, |before|)
           + (if Selects(pattern, last.name) && last.name == name then [Ready(last)] else [])
  {
    var before, last := Selected(pattern, items, n - 1), items[n - 1];
    if Selects(pattern, last.name) {
      ListingsNext(before, last, name);
      assert Selected(pattern, items, n) == before + [last];
    } else {
      assert Selected(pattern, items, n) == before;
    }
  }

  lemma ListingsNext(pods: seq<Pod>, pod: Pod, name: string)
    ensures Listings(pods + [pod], name, |pods| + 1)
         == Listings(pods, name, |pods|) + (if pod.name == name then [Ready(pod)] else [])
  {
    ListingsPrefix(pods, [pod], name, |pods|);
  }

  lemma {:induction false} ListingsPrefix(pods: seq<Pod>, more: seq<Pod>, name: string, n: nat)
    requires n <= |pods|
    ensures Listings(pods + more, name, n) == Listings(pods, name, n)
  {
    if n > 0 { ListingsPrefix(pods, more, name, n - 1); }
  }

  /** In every watch: about a name there is one notice for each ready listing, then one for each
      edge of its events; `podReadyMap` holds the last reading. */
  lemma WatchedOf(pattern: Pattern, items: seq<Pod>, events: seq<Event>, name: string)
    ensures var w := Watched(pattern, items, events);
      var listings := if Selects(pattern, name) then Listings(items, name, |items|) else [];
      && Of(w.notices, name)
           == Trues(listings)
              + Edges(Level(false, listings), Reports(pattern, events, name, |events|))
      && w.Up(name) == Level(false, History(pattern, items, events, name))
  {
    var pods := Selected(pattern, items, |items|);
    var listings := if Selects(pattern, name) then Listings(items, name, |items|) else [];
    ListingsOfSelected(pattern, items, name, |items|);
    ListedOf(pods, name, |pods|);
    HandledOf(pattern, Listed(pods, |pods|), events, name, |events|);
    EdgesConcat(false, listings, Reports(pattern, events, name, |events|));
  }

  // ---------------------------------------------------------------------------------------
  // Alternation
  // ---------------------------------------------------------------------------------------

  /** Available, unavailable, available, ... */
  predicate Alternates(log: seq<bool>) {
    forall i | 0 <= i < |log| :: log[i] == (i % 2 == 0)
  }

  lemma {:induction false} EdgesAlternate(readings: seq<bool>)
    ensures Alternates(Edges(false, readings))
    ensures Level(false, Edges(false, readings)) == Level(false, readings)
  {
    if readings != [] { EdgesAlternate(readings[..|readings| - 1]); }
  }

  /** No ready reading is followed by another one. */
  predicate Settled(listings: seq<bool>) {
    forall k | 0 <= k < |listings| - 1 :: !listings[k]
  }

  lemma {:induction false} TruesOfFalses(readings: seq<bool>)
    ensures true !in readings ==> Trues(readings) == [] && Edges(false, readings) == []
    ensures true in readings ==> Trues(readings) != []
    ensures forall b | b in Trues(readings) :: b
  {
    if readings != [] {
      TruesOfFalses(readings[..|readings| - 1]);
      assert readings == readings[..|readings| - 1] + [readings[|readings| - 1]];
    }
  }

  lemma SettledTrues(listings: seq<bool>)
    requires Settled(listings)
    ensures Trues(listings) == Edges(false, listings)
  {
    if listings != [] { TruesOfFalses(listings[..|listings| - 1]); }
  }

  /** If listings are not settled, one more ready reading breaks the alternation. */
  lemma UnsettledTrues(listings: seq<bool>)
    requires !Settled(listings)
    ensures !Alternates(Trues(listings) + Edges(Level(false, listings), [true]))
  {
    var before, last := listings[..|listings| - 1], listings[|listings| - 1];
    var k :| 0 <= k < |listings| - 1 && listings[k];
    assert before[k];
    TruesOfFalses(before);
    TruesOfFalses(listings);
    OneEdge(last);
    TwoTrues(Trues(before), Trues(listings), last);
  }

  lemma OneEdge(from: bool)
    ensures Edges(from, [true]) == if from then [] else [true]
  {
    EdgesNext(from, [], true);
    assert [] + [true] == [true];
  }

  lemma TwoTrues(before: seq<bool>, all: seq<bool>, last: bool)
    requires before != [] && (forall b | b in all :: b)
    requires all == before + (if last then [true] else [])
    ensures !Alternates(all + (if last then [] else [true]))
  {
    var log := all + (if last then [] else [true]);
    assert log[1] by { if 1 < |all| { assert all[1] in all; } }
  }

  /** No selected pod that was listed as ready is listed again under the same name. */
  predicate ListedOnce(pattern: Pattern, items: seq<Pod>) {
    forall i, j | 0 <= i < j < |items| && items[i].name == items[j].name ::
      Selects(pattern, items[i].name) ==> !Ready(items[i])
  }

  lemma {:induction false} ReadyListing(items: seq<Pod>, name: string, n: nat)
    requires n <= |items|
    ensures true in Listings(items, name, n)
      <==> exists i | 0 <= i < n :: items[i].name == name && Ready(items[i])
  {
    if n > 0 { ReadyListing(items, name, n - 1); }
  }

  lemma {:induction false} SettledListings(items: seq<Pod>, name: string, n: nat)
    requires n <= |items|
    ensures Settled(Listings(items, name, n))
      <==> forall i, j | 0 <= i < j < n && items[i].name == items[j].name ::
             items[i].name == name ==> !Ready(items[i])
  {
    if n > 0 {
      var before := Listings(items, name, n - 1);
      SettledListings(items, name, n - 1);
      ReadyListing(items, name, n - 1);
      if items[n - 1].name == name {
        SettledSnoc(before, Ready(items[n - 1]));
      } else {
        assert Listings(items, name, n) == before;
      }
    }
  }

  lemma SettledSnoc(before: seq<bool>, last: bool)
    ensures Settled(before + [last]) <==> true !in before
  {
    if true !in before {
    } else {
      var k :| 0 <= k < |before| && before[k];
      assert (before + [last])[k];
    }
  }

  /** If no selected pod listed as ready is listed again, the notices for a name are the edges of
      everything that is read about it. They alternate, starting with available, and the last one
      agrees with the latest reading. */
  lemma NoticesAreEdges(pattern: Pattern, items: seq<Pod>, events: seq<Event>, name: string)
    requires ListedOnce(pattern, items)
    ensures var log := Of(Watched(pattern, items, events).notices, name);
      && log == Edges(false, History(pattern, items, events, name))
      && Alternates(log)
      && Level(false, log) == Level(false, History(pattern, items, events, name))
  {
    var listings := if Selects(pattern, name) then Listings(items, name, |items|) else [];
    WatchedOf(pattern, items, events, name);
    SettledListings(items, name, |items|);
    SettledTrues(listings);
    EdgesConcat(false, listings, Reports(pattern, events, name, |events|));
    EdgesAlternate(History(pattern, items, events, name));
  }

  /** What of a log is heard with the given handlers. */
  function Audible(onAvailable: bool, onUnavailable: bool, log: seq<bool>): seq<bool> {
    if log == [] then [] else
      var last := log[|log| - 1];
      Audible(onAvailable, onUnavailable, log[..|log| - 1])
        + (if (if last then onAvailable else onUnavailable) then [last] else [])
  }

  lemma AudibleNext(onAvailable: bool, onUnavailable: bool, log: seq<bool>, next: bool)
    ensures Audible(onAvailable, onUnavailable, log + [next])
         == Audible(onAvailable, onUnavailable, log)
            + (if (if next then onAvailable else onUnavailable) then [next] else [])
  {
    assert (log + [next])[..|log|] == log;
  }

  lemma {:induction false} AllAudible(log: seq<bool>)
    ensures Audible(true, true, log) == log
  {
    if log != [] {
      AllAudible(log[..|log| - 1]);
      assert log == log[..|log| - 1] + [log[|log| - 1]];
    }
  }

  lemma {:induction false} HeardOf(onAvailable: bool, onUnavailable: bool, notices: seq<Notice>,
                                   name: string)
    ensures Of(Heard(onAvailable, onUnavailable, notices), name)
         == Audible(onAvailable, onUnavailable, Of(notices, name))
  {
    if notices != [] {
      var before, last := notices[..|notices| - 1], notices[|notices| - 1];
      HeardOf(onAvailable, onUnavailable, before, name);
      OfNext(Heard(onAvailable, onUnavailable, before), last, name);
      if last.pod.name == name {
        AudibleNext(onAvailable, onUnavailable, Of(before, name), last.available);
      } else {
        assert Of(notices, name) == Of(before, name);
      }
      if !(if last.available then onAvailable else onUnavailable) {
        assert Heard(onAvailable, onUnavailable, notices)
            == Heard(onAvailable, onUnavailable, before);
      }
    }
  }

  /** If no selected pod listed as ready is listed again, the callbacks made for a name are the
      edges of its history that have a handler, in order. With
      both handlers they alternate, starting with available, and the last one agrees with the
      latest reading; with one handler, there is one call for each edge of its kind. */
  lemma CallbacksAreEdges(pattern: Pattern, onAvailable: bool, onUnavailable: bool,
                          items: seq<Pod>, events: seq<Event>, name: string)
    requires ListedOnce(pattern, items)
    ensures var calls := Heard(onAvailable, onUnavailable, Watched(pattern, items, events).notices);
      var history := History(pattern, items, events, name);
      && Of(calls, name) == Audible(onAvailable, onUnavailable, Edges(false, history))
      && (onAvailable && onUnavailable ==>
            Alternates(Of(calls, name)) && Level(false, Of(calls, name)) == Level(false, history))
  {
    NoticesAreEdges(pattern, items, events, name);
    HeardOf(onAvailable, onUnavailable, Watched(pattern, items, events).notices, name);
    AllAudible(Edges(false, History(pattern, items, events, name)));
  }

  lemma DistinctNamesAreListedOnce(pattern: Pattern, items: seq<Pod>)
    requires forall i, j | 0 <= i < j < |items| :: items[i].name != items[j].name
    ensures ListedOnce(pattern, items)
  {}

  /** Within one namespace pods have distinct names; there the callbacks of every name alternate,
      whatever the events. */
  lemma DistinctNamesAlternate(pattern: Pattern, items: seq<Pod>, events: seq<Event>, name: string)
    requires forall i, j | 0 <= i < j < |items| :: items[i].name != items[j].name
    ensures var calls := Of(Heard(true, true, Watched(pattern, items, events).notices), name);
      Alternates(calls) && Level(false, calls) == Level(false, History(pattern, items, events, name))
  {
    DistinctNamesAreListedOnce(pattern, items);
    CallbacksAreEdges(pattern, true, true, items, events, name);
  }

  /** Whatever the events, the callbacks of every name alternate: exactly if no pod listed as
      ready is listed again. In all namespaces together two pods may share a name. */
  lemma AlternatesExactly(pattern: Pattern, items: seq<Pod>)
    ensures ListedOnce(pattern, items)
      <==> forall events: seq<Event>, name: string ::
             Alternates(Of(Watched(pattern, items, events).notices, name))
  {
    if ListedOnce(pattern, items) {
      forall events: seq<Event>, name: string
        ensures Alternates(Of(Watched(pattern, items, events).notices, name))
      {
        NoticesAreEdges(pattern, items, events, name);
      }
    } else {
      var i, j :| 0 <= i < j < |items| && items[i].name == items[j].name
        && Selects(pattern, items[i].name) && Ready(items[i]);
      ListedTwice(pattern, items, i, j);
    }
  }

  /** A pod listed as ready and listed again is reported as available twice in a row, at the
      latest when it is next modified and ready. */
  lemma ListedTwice(pattern: Pattern, items: seq<Pod>, i: nat, j: nat)
    requires i < j < |items| && items[i].name == items[j].name
    requires Selects(pattern, items[i].name) && Ready(items[i])
    ensures var events := [Event(Modified, Some(items[i]))];
      !Alternates(Of(Watched(pattern, items, events).notices, items[i].name))
  {
    var e, name := Event(Modified, Some(items[i])), items[i].name;
    SettledListings(items, name, |items|);
    UnsettledTrues(Listings(items, name, |items|));
    ReportsOne(pattern, e);
    WatchedOf(pattern, items, [e], name);
  }

  lemma ReportsOne(pattern: Pattern, e: Event)
    requires Reading(pattern, e).Some?
    ensures Reports(pattern, [e], e.about.value.name, 1) == [Reading(pattern, e).value]
  {
    assert Reports(pattern, [e], e.about.value.name, 0) == [];
  }

  // ---------------------------------------------------------------------------------------
  // The last reading, kind by kind
  // ---------------------------------------------------------------------------------------

  /** A modification or a deletion of the selected pod of that name. */
  predicate Tells(pattern: Pattern, e: Event, name: string) {
    && (e.kind == Modified || e.kind == Deleted)
    && e.about.Some? && e.about.value.name == name
    && (pattern.Some? ==> pattern.value(name))
  }

  /** Running, with a container, and all containers ready. */
  predicate Serves(pod: Pod) {
    pod.running && |pod.containers| > 0 && forall i | 0 <= i < |pod.containers| :: pod.containers[i]
  }

  lemma ServesIsReady(pod: Pod)
    ensures Serves(pod) <==> Ready(pod)
  {
    if Ready(pod) {
      forall i | 0 <= i < |pod.containers| ensures pod.containers[i] {
        assert pod.containers[i] in pod.containers;
      }
    }
  }

  lemma {:induction false} QuietReports(pattern: Pattern, events: seq<Event>, name: string,
                                        i: nat, n: nat)
    requires i <= n <= |events|
    requires forall k | i <= k < n :: !Tells(pattern, events[k], name)
    ensures Reports(pattern, events, name, n) == Reports(pattern, events, name, i)
  {
    if i < n { QuietReports(pattern, events, name, i, n - 1); }
  }

  /** After the last modification or deletion of a pod, the watch holds it for available exactly if
      that was a modification and the pod was running with all of its containers ready. Added pods,
      other events and objects that are no pods make no difference. */
  lemma LastEventDecides(pattern: Pattern, items: seq<Pod>, events: seq<Event>, name: string, i: nat)
    requires i < |events| && Tells(pattern, events[i], name)
    requires forall k | i < k < |events| :: !Tells(pattern, events[k], name)
    ensures Watched(pattern, items, events).Up(name)
      <==> events[i].kind == Modified && Serves(events[i].about.value)
  {
    var pods := Selected(pattern, items, |items|);
    var w := Listed(pods, |pods|);
    HandledOf(pattern, w, events, name, |events|);
    ReportLevel(pattern, events, name, i, w.Up(name));
    ServesIsReady(events[i].about.value);
  }

  lemma ReportLevel(pattern: Pattern, events: seq<Event>, name: string, i: nat, from: bool)
    requires i < |events| && Tells(pattern, events[i], name)
    requires forall k | i < k < |events| :: !Tells(pattern, events[k], name)
    ensures Level(from, Reports(pattern, events, name, |events|))
      <==> events[i].kind == Modified && Ready(events[i].about.value)
  {
    QuietReports(pattern, events, name, i + 1, |events|);
    var r := ReadingOf(pattern, events[i], name);
    assert Reports(pattern, events, name, i + 1) == Reports(pattern, events, name, i) + [r.value];
  }

  lemma {:induction false} QuietListings(items: seq<Pod>, name: string, j: nat, n: nat)
    requires j <= n <= |items| && forall k | j <= k < n :: items[k].name != name
    ensures Listings(items, name, n) == Listings(items, name, j)
  {
    if j < n { QuietListings(items, name, j, n - 1); }
  }

  /** Without such an event the last listing of the name decides, if the pattern selects it. */
  lemma LastListingDecides(pattern: Pattern, items: seq<Pod>, events: seq<Event>, name: string, j: nat)
    requires j < |items| && items[j].name == name && Selects(pattern, name)
    requires forall k | j < k < |items| :: items[k].name != name
    requires forall k | 0 <= k < |events| :: !Tells(pattern, events[k], name)
    ensures Watched(pattern, items, events).Up(name) <==> Serves(items[j])
  {
    QuietLevel(pattern, items, events, name);
    ListingLevel(items, name, j);
    ServesIsReady(items[j]);
  }

  lemma ListingLevel(items: seq<Pod>, name: string, j: nat)
    requires j < |items| && items[j].name == name
    requires forall k | j < k < |items| :: items[k].name != name
    ensures Level(false, Listings(items, name, |items|)) == Ready(items[j])
  {
    QuietListings(items, name, j + 1, |items|);
    assert Listings(items, name, j + 1) == Listings(items, name, j) + [Ready(items[j])];
  }

  lemma QuietLevel(pattern: Pattern, items: seq<Pod>, events: seq<Event>, name: string)
    requires Selects(pattern, name)
    requires forall k | 0 <= k < |events| :: !Tells(pattern, events[k], name)
    ensures Watched(pattern, items, events).Up(name) == Level(false, Listings(items, name, |items|))
  {
    var pods := Selected(pattern, items, |items|);
    ListingsOfSelected(pattern, items, name, |items|);
    ListedOf(pods, name, |pods|);
    HandledOf(pattern, Listed(pods, |pods|), events, name, |events|);
    QuietReports(pattern, events, name, 0, |events|);
  }

  /** A pod that is neither selected and listed nor told about is not available. */
  lemma UnknownIsDown(pattern: Pattern, items: seq<Pod>, events: seq<Event>, name: string)
    requires !Selects(pattern, name) || forall k | 0 <= k < |items| :: items[k].name != name
    requires forall k | 0 <= k < |events| :: !Tells(pattern, events[k], name)
    ensures !Watched(pattern, items, events).Up(name)
    ensures Of(Watched(pattern, items, events).notices, name) == []
  {
    WatchedOf(pattern, items, events, name);
    QuietReports(pattern, events, name, 0, |events|);
    if Selects(pattern, name) { QuietListings(items, name, 0, |items|); }
  }

  // ---------------------------------------------------------------------------------------
  // Who hears what
  // ---------------------------------------------------------------------------------------

  /** With both handlers every notice is a callback, in order; with none there is no callback. */
  lemma {:induction false} HeardAll(notices: seq<Notice>)
    ensures Heard(true, true, notices) == notices
    ensures Heard(false, false, notices) == []
  {
    if notices != [] {
      HeardAll(notices[..|notices| - 1]);
      assert notices == notices[..|notices| - 1] + [notices[|notices| - 1]];
    }
  }

  // ---------------------------------------------------------------------------------------
  // Who is notified about
  // ---------------------------------------------------------------------------------------

  /** Only selected pods, and only ready ones as available. */
  predicate Fair(pattern: Pattern, notices: seq<Notice>) {
    forall c | c in notices :: Selects(pattern, c.pod.name) && (c.available ==> Ready(c.pod))
  }

  lemma {:induction false} ListedFair(pattern: Pattern, pods: seq<Pod>, n: nat)
    requires n <= |pods| && forall p | p in pods :: Selects(pattern, p.name)
    ensures Fair(pattern, Listed(pods, n).notices)
  {
    if n > 0 {
      ListedFair(pattern, pods, n - 1);
      assert pods[n - 1] in pods;
    }
  }

  lemma {:induction false} HandledFair(pattern: Pattern, w: Watch, events: seq<Event>, n: nat)
    requires n <= |events| && Fair(pattern, w.notices)
    ensures Fair(pattern, Handled(pattern, w, events, n).notices)
  {
    if n > 0 { HandledFair(pattern, w, events, n - 1); }
  }

  lemma {:induction false} SelectedOnly(pattern: Pattern, items: seq<Pod>, n: nat)
    requires n <= |items|
    ensures forall p | p in Selected(pattern, items, n) :: p in items && Selects(pattern, p.name)
  {
    if n > 0 { SelectedOnly(pattern, items, n - 1); }
  }

  /** In terms of phases and containers: every notice is about a selected pod, and one as available
      only about a pod that is running, has a container, and whose containers are all ready. */
  lemma AvailableMeansRunning(pattern: Pattern, items: seq<Pod>, events: seq<Event>, c: Notice)
    requires c in Watched(pattern, items, events).notices
    ensures pattern.Some? ==> pattern.value(c.pod.name)
    ensures c.available ==>
      c.pod.running && |c.pod.containers| > 0 && forall i | 0 <= i < |c.pod.containers| :: c.pod.containers[i]
  {
    OnlySelectedPods(pattern, items, events);
    if c.available {
      forall i | 0 <= i < |c.pod.containers| ensures c.pod.containers[i] {
        assert c.pod.containers[i] in c.pod.containers;
      }
    }
  }

  lemma OnlySelectedPods(pattern: Pattern, items: seq<Pod>, events: seq<Event>)
    ensures Fair(pattern, Watched(pattern, items, events).notices)
  {
    var pods := Selected(pattern, items, |items|);
    SelectedOnly(pattern, items, |items|);
    ListedFair(pattern, pods, |pods|);
    HandledFair(pattern, Listed(pods, |pods|), events, |events|);
  }
}
