// What every run of the connection manager keeps about its handles: none opens twice, a handle that is held is polled
// until it opens or closes, the stability timer runs while it stands open and then only, and only allowed transports
// are held (browser/js/reliable.js:492-797).
module TransportWatch {
  import opened Transports
  import opened TransportSafety
  import opened TransportOpenings
  import opened OpeningRuns
  import opened Wrappers

  // ---- Logs that grow ----

  predicate OpenedIn(effects: seq<Effect>, id: nat) { exists e :: e in effects && e.Opened? && e.id == id }

  /** No handle opens twice. */
  predicate OpensOnce(effects: seq<Effect>) {
    forall i, j :: 0 <= i < j < |effects| && effects[i].Opened? && effects[j].Opened? ==> effects[i].id != effects[j].id
  }

  /** A connection counts as stable only while it stands open: opened, and neither lost nor counted since. */
  predicate StableRightly(effects: seq<Effect>) {
    forall i :: 0 <= i < |effects| && effects[i].Stable? ==> StandsOpen(effects[..i], effects[i].id)
  }

  lemma {:induction false} LossesEnd(effects: seq<Effect>, d: seq<Effect>, id: nat)
    requires OnlyLoses(d)
    ensures StandsOpen(effects + d, id) <==> StandsOpen(effects, id) && !LostIn(d, id)
    decreases |d|
  {
    if d == [] {
      assert effects + d == effects;
    } else {
      var front, e := d[..|d| - 1], d[|d| - 1];
      assert e in d && d == front + [e] && effects + d == (effects + front) + [e];
      LossesEnd(effects, front, id);
      LastAboutSnoc(effects + front, e, id);
      LostConcat(front, [e], id);
      LostOne(e, id);
    }
  }

  lemma LostOne(e: Effect, id: nat)
    ensures LostIn([e], id) <==> e.Lost? && e.id == id
  {
    assert e in [e];
  }

  lemma {:induction false} OpeningsStand(effects: seq<Effect>, d: seq<Effect>, info: map<nat, Info>, id: nat)
    requires OnlyOpens(d, info)
    ensures StandsOpen(effects + d, id) <==> StandsOpen(effects, id) || OpenedIn(d, id)
    decreases |d|
  {
    if d == [] {
      assert effects + d == effects;
    } else {
      var front, e := d[..|d| - 1], d[|d| - 1];
      assert e in d && d == front + [e] && effects + d == (effects + front) + [e];
      OpeningsStand(effects, front, info, id);
      LastAboutSnoc(effects + front, e, id);
      OpenedConcat(front, [e], id);
      OpenedOne(e, id);
    }
  }

  lemma OpenedConcat(a: seq<Effect>, b: seq<Effect>, id: nat)
    ensures OpenedIn(a + b, id) <==> OpenedIn(a, id) || OpenedIn(b, id)
  {
    if e :| e in a && e.Opened? && e.id == id {
      assert e in a + b;
    }
    if e :| e in b && e.Opened? && e.id == id {
      assert e in a + b;
    }
  }

  lemma OpenedOne(e: Effect, id: nat)
    ensures OpenedIn([e], id) <==> e.Opened? && e.id == id
  {
    assert e in [e];
  }

  /** Appending effects none of which says stable. */
  lemma StableMore(effects: seq<Effect>, d: seq<Effect>)
    requires StableRightly(effects) && forall e :: e in d ==> !e.Stable?
    ensures StableRightly(effects + d)
  {
    hide StandsOpen;
    var all := effects + d;
    assert forall i :: |effects| <= i < |all| ==> all[i] in d;
    forall i | 0 <= i < |effects| && all[i].Stable?
      ensures StandsOpen(all[..i], all[i].id)
    {
      assert all[..i] == effects[..i];
    }
  }

  /** Appending openings of other handles, each once. */
  lemma OnceMore(effects: seq<Effect>, d: seq<Effect>)
    requires OpensOnce(effects) && OpensOnce(d)
    requires forall e :: e in d && e.Opened? ==> !OpenedIn(effects, e.id)
    ensures OpensOnce(effects + d)
  {
    var all := effects + d;
    forall i, j | 0 <= i < j < |all| && all[i].Opened? && all[j].Opened?
      ensures all[i].id != all[j].id
    {
      if i < |effects| <= j {
        assert all[j] in d && all[i] in effects;
      } else if i >= |effects| {
        assert all[i] == d[i - |effects|] && all[j] == d[j - |effects|];
      }
    }
  }

  lemma {:induction false} IncreasingOnce(effects: seq<Effect>, low: nat, high: nat)
    requires Increasing(Openings(effects), low, high)
    ensures OpensOnce(effects)
    decreases |effects|
  {
    if effects != [] {
      var rest, ids := effects[1..], Openings(effects);
      var k := if effects[0].Opened? then 1 else 0;
      assert Openings(rest) == ids[k..];
      SuffixIncreasing(ids, low, high, k);
      IncreasingOnce(rest, low, high);
      forall i, j | 0 <= i < j < |effects| && effects[i].Opened? && effects[j].Opened?
        ensures effects[i].id != effects[j].id
      {
        assert effects[j] == rest[j - 1];
        if i == 0 {
          OpeningsHas(rest, effects[j].id);
          var l :| 0 <= l < |Openings(rest)| && Openings(rest)[l] == effects[j].id;
          assert ids[l + 1] == effects[j].id && ids[0] == effects[0].id;
        } else {
          assert effects[i] == rest[i - 1];
        }
      }
    }
  }

  lemma SuffixIncreasing(ids: seq<nat>, low: nat, high: nat, k: nat)
    requires Increasing(ids, low, high) && k <= |ids|
    ensures Increasing(ids[k..], low, high)
  {
  }

  // ---- The invariant ----

  /** given: handles whose poll has found them closed. */
  ghost predicate Watched(m: Manager, given: set<nat>) {
    && OpensOnce(m.effects) && StableRightly(m.effects)
    && (forall id :: OpenedIn(m.effects, id) ==> id in m.info && !m.info[id].polling)
    && (forall id :: id in m.info && m.info[id].stability ==> StandsOpen(m.effects, id))
    && (forall s :: s in m.handles ==> HeldRightly(m, s, given))
  }

  predicate HeldRightly(m: Manager, s: Slot, given: set<nat>) {
    && s.id in m.info
    && (StandsOpen(m.effects, s.id) ==> m.info[s.id].stability)
    && (OpenedIn(m.effects, s.id) || m.info[s.id].polling || s.id in given)
  }

  lemma CutKeepsWatch(m: Manager, n: Manager, given: set<nat>)
    requires Watched(m, given) && Cutting(m, n)
    ensures Watched(n, given)
  {
    hide StandsOpen, LostIn, OpenedIn, OpensOnce, StableRightly;
    var d := Added(m, n);
    assert n.effects == m.effects + d;
    StableMore(m.effects, d);
    NoneOpensHere(d);
    OnceMore(m.effects, d);
    forall id
      ensures StandsOpen(n.effects, id) <==> StandsOpen(m.effects, id) && !LostIn(d, id)
      ensures OpenedIn(n.effects, id) <==> OpenedIn(m.effects, id)
    {
      LossesEnd(m.effects, d, id);
      OpenedConcat(m.effects, d, id);
      NoneOpened(d, id);
    }
    forall s | s in n.handles
      ensures HeldRightly(n, s, given)
    {
      assert HeldRightly(m, s, given);
    }
  }

  lemma NoneOpened(d: seq<Effect>, id: nat)
    requires OnlyLoses(d)
    ensures !OpenedIn(d, id)
  {
  }

  lemma NoneOpensHere(d: seq<Effect>)
    requires OnlyLoses(d)
    ensures OpensOnce(d) && forall e :: e in d ==> !e.Opened?
  {
    forall i | 0 <= i < |d|
      ensures !d[i].Opened?
    {
      assert d[i] in d;
    }
  }

  lemma JoinKeepsWatch(m: Manager, n: Manager, given: set<nat>)
    requires Watched(m, given) && Joining(m, n) && Numbered(m) && Named(n.handles, n.info)
    ensures Watched(n, given)
  {
    hide StandsOpen, OpenedIn, OpensOnce, StableRightly, Tidy, Openings, Increasing;
    var d := Added(m, n);
    assert n.effects == m.effects + d;
    StableMore(m.effects, d);
    IncreasingOnce(d, m.next, n.next);
    forall id
      ensures StandsOpen(n.effects, id) <==> StandsOpen(m.effects, id) || id in Openings(d)
      ensures OpenedIn(n.effects, id) <==> OpenedIn(m.effects, id) || id in Openings(d)
    {
      OpeningsStand(m.effects, d, n.info, id);
      OpenedConcat(m.effects, d, id);
      OpenedMeans(d, id);
    }
    forall e | e in d && e.Opened?
      ensures !OpenedIn(m.effects, e.id)
    {
      OpenedHere(d, e);
    }
    OnceMore(m.effects, d);
    forall id
      ensures StandsOpen(m.effects, id) ==> id in m.info
    {
      if StandsOpen(m.effects, id) {
        StandsMeansOpened(m.effects, id);
      }
    }
    forall s | s in n.handles
      ensures HeldRightly(n, s, given)
    {
      if s in m.handles {
        assert HeldRightly(m, s, given);
      }
    }
  }

  lemma OpenedMeans(d: seq<Effect>, id: nat)
    ensures OpenedIn(d, id) <==> id in Openings(d)
  {
    OpeningsHas(d, id);
    if e :| e in d && e.Opened? && e.id == id {
      var i :| 0 <= i < |d| && d[i] == e;
      assert d[i].Opened? && d[i].id == id;
    }
    if i :| 0 <= i < |d| && d[i].Opened? && d[i].id == id {
      assert d[i] in d;
    }
  }

  lemma OpenedHere(d: seq<Effect>, e: Effect)
    requires e in d && e.Opened?
    ensures e.id in Openings(d)
  {
    OpenedMeans(d, e.id);
  }

  lemma {:induction false} StandsMeansOpened(effects: seq<Effect>, id: nat)
    requires StandsOpen(effects, id)
    ensures OpenedIn(effects, id)
    decreases |effects|
  {
    var front, e := effects[..|effects| - 1], effects[|effects| - 1];
    assert e in effects && effects == front + [e];
    if !(e.Opened? && e.id == id) {
      StandsMeansOpened(front, id);
      OpenedConcat(front, [e], id);
    }
  }

  /** Effects that say nothing about handles. */
  lemma AsideKeepsWatch(m: Manager, n: Manager, e: Effect, given: set<nat>)
    requires Watched(m, given) && n == m.(effects := m.effects + [e], info := n.info)
    requires e.ResumeSent? || e.Passed?
    requires n.info.Keys == m.info.Keys && forall id :: id in m.info ==>
               n.info[id].polling == m.info[id].polling && n.info[id].stability == m.info[id].stability
    ensures Watched(n, given)
  {
    hide StandsOpen, OpenedIn, OpensOnce, StableRightly;
    StableMore(m.effects, [e]);
    SingleOnce(e);
    OnceMore(m.effects, [e]);
    forall id
      ensures StandsOpen(n.effects, id) <==> StandsOpen(m.effects, id)
      ensures OpenedIn(n.effects, id) <==> OpenedIn(m.effects, id)
    {
      AsideStands(m.effects, e, id);
    }
    forall s | s in n.handles
      ensures HeldRightly(n, s, given)
    {
      assert HeldRightly(m, s, given);
    }
  }

  lemma AsideStands(effects: seq<Effect>, e: Effect, id: nat)
    requires e.ResumeSent? || e.Passed?
    ensures StandsOpen(effects + [e], id) <==> StandsOpen(effects, id)
    ensures OpenedIn(effects + [e], id) <==> OpenedIn(effects, id)
  {
    LastAboutSnoc(effects, e, id);
    OpenedConcat(effects, [e], id);
    OpenedOne(e, id);
  }

  lemma SingleOnce(e: Effect)
    ensures OpensOnce([e])
  {
  }

  // ---- Single handles ----

  lemma OpeningKeepsWatch(m: Manager, id: nat, given: set<nat>)
    requires Watched(m, given) && id in m.info && m.info[id].polling
    ensures Watched(TransportOpen(m.(info := m.info[id := m.info[id].(polling := false)]), id), given)
  {
    hide StandsOpen, OpenedIn, OpensOnce, StableRightly;
    var n := TransportOpen(m.(info := m.info[id := m.info[id].(polling := false)]), id);
    var d := OpeningOf(m.info[id].name, id);
    assert n.effects == m.effects + d;
    StableMore(m.effects, d);
    OpeningIs(m.info[id].name, id, n.info);
    OnceMore(m.effects, d);
    forall i
      ensures StandsOpen(n.effects, i) <==> StandsOpen(m.effects, i) || i == id
      ensures OpenedIn(n.effects, i) <==> OpenedIn(m.effects, i) || i == id
    {
      OpeningsStand(m.effects, d, n.info, i);
      OpenedConcat(m.effects, d, i);
    }
    forall s | s in n.handles
      ensures HeldRightly(n, s, given)
    {
      assert HeldRightly(m, s, given);
    }
  }

  lemma OpeningIs(name: Name, id: nat, info: map<nat, Info>)
    requires id in info && info[id].name == name
    ensures var d := OpeningOf(name, id);
            && OpensOnce(d) && OnlyOpens(d, info) && (forall e :: e in d && e.Opened? ==> e.id == id)
            && forall i :: OpenedIn(d, i) <==> i == id
  {
    assert Opened(name, id) in OpeningOf(name, id);
  }

  lemma StabilityKeepsWatch(m: Manager, id: nat, given: set<nat>)
    requires Watched(m, given) && id in m.info && m.info[id].stability
    ensures Watched(StabilityFires(m, id), given)
  {
    hide StandsOpen, OpenedIn, OpensOnce;
    var n := StabilityFires(m, id);
    var e := Stable(m.info[id].name, id);
    assert forall i :: 0 <= i < |m.effects| ==> n.effects[..i] == m.effects[..i];
    assert n.effects[..|m.effects|] == m.effects;
    SingleOnce(e);
    OnceMore(m.effects, [e]);
    forall i
      ensures StandsOpen(n.effects, i) <==> StandsOpen(m.effects, i) && i != id
      ensures OpenedIn(n.effects, i) <==> OpenedIn(m.effects, i)
    {
      CountedStands(m.effects, e, i);
    }
    forall s | s in n.handles
      ensures HeldRightly(n, s, given)
    {
      assert HeldRightly(m, s, given);
    }
  }

  lemma CountedStands(effects: seq<Effect>, e: Effect, id: nat)
    requires e.Stable?
    ensures StandsOpen(effects + [e], id) <==> StandsOpen(effects, id) && id != e.id
    ensures OpenedIn(effects + [e], id) <==> OpenedIn(effects, id)
  {
    LastAboutSnoc(effects, e, id);
    OpenedConcat(effects, [e], id);
    OpenedOne(e, id);
  }

  /** The log stays as it is, and polling ends only for a handle that has been given up. */
  lemma QuietKeepsWatch(m: Manager, n: Manager, given: set<nat>, more: set<nat>)
    requires Watched(m, given) && given <= more && n == m.(info := n.info) && n.info.Keys == m.info.Keys
    requires forall id :: id in m.info ==>
               n.info[id].stability == m.info[id].stability && (n.info[id].polling ==> m.info[id].polling)
               && (m.info[id].polling && !n.info[id].polling ==> id in more)
    ensures Watched(n, more)
  {
    hide StandsOpen, OpenedIn, OpensOnce, StableRightly;
    forall s | s in n.handles
      ensures HeldRightly(n, s, more)
    {
      assert HeldRightly(m, s, given);
    }
  }

  // ---- Runs ----

  /** The poll finds the handle closed. */
  function GivesUp(m: Manager, e: Event): set<nat> {
    if e.DoPoll? && e.id in m.info && m.info[e.id].polling && m.info[e.id].ready == Closed then {e.id} else {}
  }

  function GivenUp(m: Manager, events: seq<Event>): set<nat>
    decreases |events|
  {
    if events == [] then {}
    else
      var init, e := events[..|events| - 1], events[|events| - 1];
      GivenUp(m, init) + GivesUp(Run(m, init), e)
  }

  lemma StepKeepsWatch(m: Manager, e: Event, given: set<nat>)
    requires Inv(m) && Watched(m, given)
    ensures Watched(Step(m, e), given + GivesUp(m, e))
  {
    hide Core, Covered, Cutting, Joining, SetAllowed, HandleCloses, Connect, Watched, PollOpen, TimerFires,
         StabilityFires;
    var n := Step(m, e);
    CoreNumbered(m);
    StepKeepsInv(m, e);
    CoreNamed(n);
    QuietKeepsWatch(m, m, given, given + GivesUp(m, e));
    assert given + {} == given;
    match e
    case DoSetAllowed(mode, connect, prompt, blocked) =>
      if mode != m.allowed {
        SwitchKeepsWatch(m, mode, connect, prompt, blocked, given);
      } else {
        SameMode(m, connect, prompt, blocked);
      }
    case DoClose(id) =>
      if id in m.info {
        CoreNamed(m);
        HandleClosesCuts(m, id);
        CutKeepsWatch(m, HandleCloses(m, id), given);
      }
    case DoTimer(name, attempt, blocked) =>
      if name in m.timers {
        TimerKeepsWatch(m, name, attempt, blocked, given);
      }
    case DoCheckRtc(attempt, blocked) =>
      ConnectConnects(m, RTC, attempt, blocked);
      if !blocked && Idle(m, RTC) {
        JoinKeepsWatch(m, n, given);
      }
    case DoPoll(id) =>
      if id in m.info && m.info[id].polling {
        PollKeepsWatch(m, id, given);
      }
    case DoStability(id) =>
      if id in m.info && m.info[id].stability {
        StabilityKeepsWatch(m, id, given);
      }
    case DoData(id) =>
      if id in m.info {
        AsideKeepsWatch(m, n, Passed(id), given);
      }
    case DoReady(id, ready) =>
      QuietKeepsWatch(m, n, given, given);
  }

  lemma TimerKeepsWatch(m: Manager, name: Name, attempt: Attempt, blocked: bool, given: set<nat>)
    requires Numbered(m) && Watched(m, given) && name in m.timers
    requires var n := TimerFires(m, name, attempt, blocked); Named(n.handles, n.info)
    ensures Watched(TimerFires(m, name, attempt, blocked), given)
  {
    hide Cutting, Joining, Connect, Watched;
    var fired := m.(timers := m.timers - {name});
    DropTimersCuts(m, fired.timers);
    CutKeepsWatch(m, fired, given);
    ConnectConnects(fired, name, attempt, blocked);
    if Allowed(fired, name) {
      JoinKeepsWatch(fired, TimerFires(m, name, attempt, blocked), given);
    }
  }

  lemma PollKeepsWatch(m: Manager, id: nat, given: set<nat>)
    requires Watched(m, given) && id in m.info && m.info[id].polling
    ensures Watched(PollOpen(m, id), given + GivesUp(m, DoPoll(id)))
  {
    hide Watched, TransportOpen;
    var n := PollOpen(m, id);
    assert given + {} == given;
    match m.info[id].ready
    case Connecting => QuietKeepsWatch(m, m, given, given);
    case Open => OpeningKeepsWatch(m, id, given);
    case Closed => QuietKeepsWatch(m, n, given, given + {id});
  }

  lemma SwitchKeepsWatch(m: Manager, mode: Name, connect: Name -> Attempt, prompt: Name -> bool, blocked: bool,
                         given: set<nat>)
    requires Inv(m) && Watched(m, given) && mode != m.allowed
    ensures Watched(SetAllowed(m, mode, connect, prompt, blocked), given)
  {
    hide Core, Covered, Cutting, Joining, SetAllowed, Watched;
    var mid, n := SetAllowedMoves(m, mode, connect, prompt, blocked);
    SetAllowedInv(m, mode, connect, prompt, blocked);
    var s := SetAllowed(m, mode, connect, prompt, blocked);
    CoreNamed(s);
    CoreNumbered(m);
    CutNumbered(m, mid);
    CutKeepsWatch(m, mid, given);
    JoinKeepsWatch(mid, n, given);
    AsideKeepsWatch(n, s, ResumeSent, given);
  }

  lemma {:induction false} RunKeepsWatch(m: Manager, events: seq<Event>)
    requires Inv(m) && Watched(m, {})
    ensures Watched(Run(m, events), GivenUp(m, events))
    decreases |events|
  {
    hide Inv, Watched, Step, GivesUp;
    if events != [] {
      RunKeepsWatch(m, events[..|events| - 1]);
      RunKeepsInv(m, events[..|events| - 1]);
      StepKeepsWatch(Run(m, events[..|events| - 1]), events[|events| - 1], GivenUp(m, events[..|events| - 1]));
    }
  }

  lemma StartWatched(defs: seq<Definition>, allowed: Name, connect: Name -> Attempt, blocked: bool)
    ensures Watched(Start(defs, allowed, connect, blocked), {})
  {
    hide Inv, ConnectAllowed, Joining, Watched;
    var blank := Manager(defs, [], map[], map[], map[], allowed, map[], 0, []);
    BlankWatched(blank);
    ConnectAllowedConnects(blank, connect, blocked, |defs|);
    StartHasInv(defs, allowed, connect, blocked);
    StartNamed(defs, allowed, connect, blocked);
    JoinKeepsWatch(blank, ConnectAllowed(blank, connect, blocked, |defs|), {});
  }

  lemma BlankWatched(m: Manager)
    requires m.handles == [] && m.info == map[] && m.effects == []
    ensures Watched(m, {})
  {
    assert LastAbout([], 0) == None;
  }

  lemma StartNamed(defs: seq<Definition>, allowed: Name, connect: Name -> Attempt, blocked: bool)
    requires Inv(Start(defs, allowed, connect, blocked))
    ensures Named(Start(defs, allowed, connect, blocked).handles, Start(defs, allowed, connect, blocked).info)
  {
    hide Start, Paced;
  }

  /** In every run: no handle opens twice; a connection counts as stable only while it stands open; a handle that is
      held has opened, is polled, or was found closed by its poll; and its stability timer runs exactly while it
      stands open. */
  lemma HandlesWatched(defs: seq<Definition>, allowed: Name, connect: Name -> Attempt, blocked: bool,
                       events: seq<Event>)
    ensures var start := Start(defs, allowed, connect, blocked);
            var m := Run(start, events);
            && OpensOnce(m.effects) && StableRightly(m.effects)
            && forall s :: s in m.handles ==>
                 && s.id in m.info
                 && (m.info[s.id].stability <==> StandsOpen(m.effects, s.id))
                 && (m.info[s.id].polling ==> !OpenedIn(m.effects, s.id))
                 && (OpenedIn(m.effects, s.id) || m.info[s.id].polling || s.id in GivenUp(start, events))
  {
    hide Start, Inv, OpensOnce, StableRightly, StandsOpen, OpenedIn, GivenUp, Run;
    var start := Start(defs, allowed, connect, blocked);
    StartHasInv(defs, allowed, connect, blocked);
    StartWatched(defs, allowed, connect, blocked);
    RunKeepsWatch(start, events);
    var m := Run(start, events);
    forall s | s in m.handles
      ensures HeldRightly(m, s, GivenUp(start, events))
    {
    }
  }
}
