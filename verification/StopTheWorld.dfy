/** The stop-the-world protocol of hostthread-heapcleaner-stuff.c and hostthread-on-posix-threads.c, as a
    transition system.

    All state is changed under one mutex, so a step is the code between taking the mutex, or waking with it,
    and releasing it, or going to sleep on the one condition variable.  `waiting` are the threads in a wait
    loop, `asleep` those of them that nobody has woken since.  `round` counts the cleans that were started and
    `joined` notes for each thread the round in which its present or last call of the heapcleaner handed in extra
    roots, 0 if that call had none; no step depends on either. */
module StopTheWorld {

  datatype Mode = RUNNING | BLOCKED | PRIMARY | SECONDARY | VOID

  datatype Cleaner = OFF | STARTING | CLEANING

  datatype State = State(
    mode: seq<Mode>, count: int, cleaner: Cleaner,
    waiting: set<nat>, asleep: set<nat>,
    extraRoots: seq<nat>, round: nat, joined: seq<nat>)

  // ------------------------------------------------------------------ steps

  /** Stop running, for one of the other modes, and tell the others. */
  function Leave(s: State, t: nat, m: Mode): State
    requires t < |s.mode|
  {
    s.(mode := s.mode[t := m], count := s.count - 1, asleep := {})
  }

  /** Run again, and tell the others. */
  function Resume(s: State, t: nat): State
    requires t < |s.mode|
  {
    s.(mode := s.mode[t := RUNNING], count := s.count + 1, waiting := s.waiting - {t}, asleep := {})
  }

  function Sleep(s: State, t: nat): State { s.(waiting := s.waiting + {t}, asleep := s.asleep + {t}) }

  /** The primary sleeps while anyone runs; then it cleans. */
  function PrimaryLoop(s: State, t: nat): State {
    if s.count > 0 then Sleep(s, t) else s.(cleaner := CLEANING, waiting := s.waiting - {t}, asleep := {})
  }

  /** A secondary, or a thread that wants its heap back, sleeps while there is a clean going on. */
  function OthersLoop(s: State, t: nat): State
    requires t < |s.mode|
  {
    if s.cleaner != OFF then Sleep(s, t) else Resume(s, t)
  }

  function Start(s: State, t: nat, roots: bool): State
    requires t < |s.mode| == |s.joined|
  {
    if s.cleaner != OFF then
      OthersLoop(Leave(s.(extraRoots := if roots then s.extraRoots + [t] else s.extraRoots,
          joined := s.joined[t := if roots then s.round else 0]), t, SECONDARY), t)
    else
      PrimaryLoop(Leave(s.(cleaner := STARTING, extraRoots := if roots then [t] else [], round := s.round + 1,
          joined := s.joined[t := if roots then s.round + 1 else 0]), t, PRIMARY), t)
  }

  datatype Event =
    | StartHeapcleaning(t: nat, roots: bool)  // pth__start_heapcleaning, with or without extra roots
    | Wake(t: nat)                            // a woken thread has the mutex again
    | Finish(t: nat)                          // pth__finish_heapcleaning
    | Release(t: nat)                         // release_mythryl_heap
    | Recover(t: nat)                         // recover_mythryl_heap
    | Create(t: nat, u: nat, ok: bool)        // pth__pthread_create by t for slot u
    | Exit(t: nat)                            // pth__pthread_exit
    | Spurious(t: nat)                        // a wait may end without a broadcast

  predicate Enabled(s: State, e: Event) {
    && e.t < |s.mode| == |s.joined|
    && match e
       case StartHeapcleaning(t, _) => s.mode[t] == RUNNING
       case Wake(t) => t in s.waiting && t !in s.asleep
       case Finish(t) => s.mode[t] == PRIMARY && t !in s.waiting
       case Release(t) => s.mode[t] == RUNNING
       case Recover(t) => s.mode[t] == BLOCKED && t !in s.waiting
       case Create(t, u, _) => s.mode[t] == RUNNING && u < |s.mode| && s.mode[u] == VOID
       case Exit(t) => s.mode[t] == RUNNING
       case Spurious(t) => t in s.asleep
  }

  function After(s: State, e: Event): State
    requires Enabled(s, e)
  {
    match e
    case StartHeapcleaning(t, roots) => Start(s, t, roots)
    case Wake(t) => if s.mode[t] == PRIMARY then PrimaryLoop(s, t) else OthersLoop(s, t)
    case Finish(t) => Resume(s.(cleaner := OFF), t)
    case Release(t) => Leave(s, t, BLOCKED)
    case Recover(t) => OthersLoop(s, t)
    case Create(_, u, ok) => if ok then s.(mode := s.mode[u := RUNNING], count := s.count + 1, asleep := {})
        else s.(asleep := {})
    case Exit(t) => Leave(s, t, VOID)
    case Spurious(t) => s.(asleep := s.asleep - {t})
  }

  /** One thread runs and nobody cleans. */
  function First(n: nat): State
    requires n >= 1
  {
    State(seq(n, t => if t == 0 then RUNNING else VOID), 1, OFF, {}, {}, [], 0, seq(n, _ => 0))
  }

  // ------------------------------------------------------------------ the invariant

  function Within(mode: seq<Mode>, m: Mode): set<nat> { set t: nat | t < |mode| && mode[t] == m }

  /** What a thread's mode says about where it is. */
  predicate ThreadOk(s: State, t: nat) {
    t < |s.mode| == |s.joined| ==>
      && (t in s.waiting ==> s.mode[t] == PRIMARY || s.mode[t] == SECONDARY || s.mode[t] == BLOCKED)
      && (s.mode[t] == SECONDARY ==> t in s.waiting)
      && (s.mode[t] == PRIMARY ==> (t in s.waiting <==> s.cleaner == STARTING))
      && (t in s.asleep ==> t in s.waiting && MustWait(s, t))
      && s.joined[t] <= s.round && (s.cleaner != OFF ==> s.round > 0)
      && (t in s.extraRoots <==> s.joined[t] == s.round > 0)
      && (s.cleaner != OFF && t in s.extraRoots ==> s.mode[t] == PRIMARY || s.mode[t] == SECONDARY)
  }

  /** What a waiting thread waits for has not come. */
  predicate MustWait(s: State, t: nat)
    requires t < |s.mode|
  {
    if s.mode[t] == PRIMARY then s.count > 0 else s.cleaner != OFF
  }

  ghost predicate Inv(s: State) {
    && |s.mode| == |s.joined| && s.count == |Within(s.mode, RUNNING)|
    && (forall t: nat {:trigger ThreadOk(s, t)} :: ThreadOk(s, t))
    && (forall t: nat {:trigger t in s.waiting} :: t in s.waiting ==> t < |s.mode|)
    && (forall t: nat {:trigger t in s.asleep} :: t in s.asleep ==> t < |s.mode|)
    && (forall t: nat {:trigger t in s.extraRoots} :: t in s.extraRoots ==> t < |s.mode|)
    && |Within(s.mode, PRIMARY)| == (if s.cleaner == OFF then 0 else 1)
    && (s.cleaner == CLEANING ==> s.count == 0)
    && NoRepeats(s.extraRoots)
  }

  predicate NoRepeats(list: seq<nat>) { forall i, j {:trigger list[i], list[j]} ::
      0 <= i < j < |list| ==> list[i] != list[j] }

  lemma WithinChanged(mode: seq<Mode>, t: nat, m: Mode, of: Mode)
    requires t < |mode|
    ensures Within(mode[t := m], of) == if m == of then Within(mode, of) + {t} else Within(mode, of) - {t}
  {
    var after := mode[t := m];
    forall u: nat
      ensures u in Within(after, of) <==> u in (if m == of then Within(mode, of) + {t} else Within(mode, of) - {t})
    {
      if u < |mode| { assert after[u] == if u == t then m else mode[u]; }
    }
  }

  /** How the number of threads in a mode changes when one thread changes its mode. */
  lemma CountChanged(mode: seq<Mode>, t: nat, m: Mode, of: Mode)
    requires t < |mode|
    ensures |Within(mode[t := m], of)| == |Within(mode, of)| + (if m == of then 1 else 0) - if mode[t] == of then 1
        else 0
  {
    WithinChanged(mode, t, m, of);
    var before := Within(mode, of);
    assert t in before <==> mode[t] == of;
    if m == of && mode[t] == of { assert before + {t} == before; }
    if m != of && mode[t] != of { assert before - {t} == before; }
  }

  lemma FirstIsOk(n: nat)
    requires n >= 1
    ensures Inv(First(n))
  {
    assert Within(First(n).mode, RUNNING) == {0};
    assert Within(First(n).mode, PRIMARY) == {};
    assert First(n).mode[0] == RUNNING;
  }

  // ------------------------------------------------------------------ every step keeps it

  lemma LeaveOk(s: State, t: nat, m: Mode)
    requires Inv(s) && t < |s.mode| && s.mode[t] == RUNNING && m != RUNNING
    ensures Leave(s, t, m).count == |Within(Leave(s, t, m).mode, RUNNING)|
    ensures |Within(Leave(s, t, m).mode, PRIMARY)| == |Within(s.mode, PRIMARY)| + if m == PRIMARY then 1 else 0
  {
    CountChanged(s.mode, t, m, RUNNING);
    CountChanged(s.mode, t, m, PRIMARY);
  }

  lemma ResumeOk(s: State, t: nat)
    requires Inv(s) && t < |s.mode| && s.mode[t] != RUNNING
    ensures Resume(s, t).count == |Within(Resume(s, t).mode, RUNNING)|
    ensures |Within(Resume(s, t).mode, PRIMARY)| == |Within(s.mode, PRIMARY)| - if s.mode[t] == PRIMARY then 1 else 0
  {
    CountChanged(s.mode, t, RUNNING, RUNNING);
    CountChanged(s.mode, t, RUNNING, PRIMARY);
  }

  lemma Inhabited(mode: seq<Mode>, t: nat)
    requires t < |mode|
    ensures |Within(mode, mode[t])| > 0
  {
    assert t in Within(mode, mode[t]);
  }

  /** A thread that runs is in nobody's way. */
  lemma RunnerIsOut(s: State, t: nat)
    requires Inv(s) && t < |s.mode| && s.mode[t] == RUNNING
    ensures t !in s.waiting && t !in s.asleep && s.cleaner != CLEANING && s.count > 0 &&
        (s.cleaner != OFF ==> t !in s.extraRoots)
  {
    assert ThreadOk(s, t);
    Inhabited(s.mode, t);
  }

  /** While nobody cleans there is no primary. */
  lemma NotPrimary(s: State, u: nat)
    requires Inv(s)
    ensures s.cleaner == OFF && u < |s.mode| ==> s.mode[u] != PRIMARY
  {
    if u < |s.mode| { Inhabited(s.mode, u); }
  }

  lemma PrimaryLoopOk(s: State, t: nat, s': State)
    requires s' == PrimaryLoop(s, t) && t < |s.mode| && s.mode[t] == PRIMARY && s.cleaner == STARTING
    requires |s.mode| == |s.joined| && s.count == |Within(s.mode, RUNNING)| && |Within(s.mode, PRIMARY)| == 1 &&
        NoRepeats(s.extraRoots)
    requires forall u: nat {:trigger ThreadOk(s, u)} :: u != t ==> ThreadOk(s, u)
    requires forall u: nat {:trigger u in s.waiting} :: u in s.waiting ==> u < |s.mode|
    requires forall u: nat {:trigger u in s.asleep} :: u in s.asleep ==> u < |s.mode|
    requires forall u: nat {:trigger u in s.extraRoots} :: u in s.extraRoots ==> u < |s.mode|
    requires s.joined[t] <= s.round && s.round > 0 && (t in s.extraRoots <==> s.joined[t] == s.round)
    ensures Inv(s')
  {
    forall u: nat ensures ThreadOk(s', u) {
      assert u != t ==> ThreadOk(s, u);
      if u < |s.mode| && s.mode[u] == PRIMARY { OnlyPrimary(s.mode, t, u); }
    }
  }

  lemma OnlyPrimary(mode: seq<Mode>, t: nat, u: nat)
    requires t < |mode| && u < |mode| && mode[t] == PRIMARY && mode[u] == PRIMARY && |Within(mode, PRIMARY)| <= 1
    ensures t == u
  {
    var p := Within(mode, PRIMARY);
    assert t in p && u in p;
    assert p == (p - {t, u}) + {t, u};
  }

  lemma BecomesPrimary(s: State, t: nat, roots: bool)
    requires Inv(s) && t < |s.mode| && s.mode[t] == RUNNING && s.cleaner == OFF
    ensures Inv(Start(s, t, roots))
  {
    var extra, joined := if roots then [t] else [], s.joined[t := if roots then s.round + 1 else 0];
    var s1 := Leave(s.(cleaner := STARTING, extraRoots := extra, round := s.round + 1, joined := joined), t, PRIMARY);
    RunnerIsOut(s, t);
    LeaveOk(s, t, PRIMARY);
    forall u: nat | u != t ensures ThreadOk(s1, u) {
      assert ThreadOk(s, u);
      NotPrimary(s, u);
    }
    PrimaryLoopOk(s1, t, Start(s, t, roots));
  }

  lemma BecomesSecondary(s: State, t: nat, roots: bool)
    requires Inv(s) && t < |s.mode| && s.mode[t] == RUNNING && s.cleaner != OFF
    ensures Inv(Start(s, t, roots))
  {
    var s' := Start(s, t, roots);
    RunnerIsOut(s, t);
    LeaveOk(s, t, SECONDARY);
    forall u: nat ensures ThreadOk(s', u) { assert ThreadOk(s, u); }
  }

  lemma PrimaryWakes(s: State, t: nat)
    requires Inv(s) && Enabled(s, Wake(t)) && s.mode[t] == PRIMARY
    ensures Inv(After(s, Wake(t)))
  {
    assert ThreadOk(s, t);
    Inhabited(s.mode, t);
    PrimaryLoopOk(s, t, After(s, Wake(t)));
  }

  /** A secondary or a thread recovering its heap looks again. */
  lemma OthersWake(s: State, t: nat)
    requires Inv(s) && t < |s.mode| && (s.mode[t] == SECONDARY || s.mode[t] == BLOCKED) && t !in s.asleep
    ensures Inv(OthersLoop(s, t))
  {
    var s' := OthersLoop(s, t);
    ResumeOk(s, t);
    forall u: nat ensures ThreadOk(s', u) { assert ThreadOk(s, u); NotPrimary(s, u); }
  }

  lemma FinishKeepsInv(s: State, t: nat)
    requires Inv(s) && Enabled(s, Finish(t))
    ensures Inv(After(s, Finish(t)))
  {
    var s' := After(s, Finish(t));
    assert ThreadOk(s, t);
    ResumeOk(s, t);
    Inhabited(s.mode, t);
    forall u: nat ensures ThreadOk(s', u) {
      assert ThreadOk(s, u);
      if u < |s.mode| && s.mode[u] == PRIMARY { OnlyPrimary(s.mode, t, u); }
    }
  }

  /** A running thread stops for good, or for a while, without a clean. */
  lemma StopKeepsInv(s: State, t: nat, m: Mode)
    requires Inv(s) && t < |s.mode| && s.mode[t] == RUNNING && (m == BLOCKED || m == VOID)
    ensures Inv(Leave(s, t, m))
  {
    var s' := Leave(s, t, m);
    RunnerIsOut(s, t);
    LeaveOk(s, t, m);
    forall u: nat ensures ThreadOk(s', u) { assert ThreadOk(s, u); }
  }

  /** A thread may be created even while a clean is starting, because its creator runs. */
  lemma CreateKeepsInv(s: State, t: nat, u: nat, ok: bool)
    requires Inv(s) && Enabled(s, Create(t, u, ok))
    ensures Inv(After(s, Create(t, u, ok)))
  {
    var s' := After(s, Create(t, u, ok));
    RunnerIsOut(s, t);
    CountChanged(s.mode, u, RUNNING, RUNNING);
    CountChanged(s.mode, u, RUNNING, PRIMARY);
    forall v: nat ensures ThreadOk(s', v) { assert ThreadOk(s, v); }
  }

  /** Every step keeps the invariant. */
  lemma StepKeepsInv(s: State, e: Event)
    requires Inv(s) && Enabled(s, e)
    ensures Inv(After(s, e))
  {
    match e
    case StartHeapcleaning(t, roots) => if s.cleaner == OFF { BecomesPrimary(s, t, roots); }
        else { BecomesSecondary(s, t, roots); }
    case Wake(t) =>
      assert ThreadOk(s, t);
      if s.mode[t] == PRIMARY { PrimaryWakes(s, t); } else { OthersWake(s, t); }
    case Finish(t) => FinishKeepsInv(s, t);
    case Release(t) => StopKeepsInv(s, t, BLOCKED);
    case Recover(t) =>
      assert ThreadOk(s, t);
      OthersWake(s, t);
    case Create(t, u, ok) => CreateKeepsInv(s, t, u, ok);
    case Exit(t) => StopKeepsInv(s, t, VOID);
    case Spurious(t) =>
      var s' := After(s, e);
      forall u: nat ensures ThreadOk(s', u) { assert ThreadOk(s, u); }
  }

  // ------------------------------------------------------------------ runs

  /** The state after some events, all of which were possible. */
  ghost predicate Run(s: State, events: seq<Event>, s': State)
    decreases |events|
  {
    if events == [] then s' == s else Enabled(s, events[0]) && Run(After(s, events[0]), events[1..], s')
  }

  lemma {:induction false} RunKeepsInv(s: State, events: seq<Event>, s': State)
    requires Inv(s) && Run(s, events, s')
    ensures Inv(s')
    decreases |events|
  {
    if events != [] {
      StepKeepsInv(s, events[0]);
      RunKeepsInv(After(s, events[0]), events[1..], s');
    }
  }

  /** Safety in every reachable state: the count is right, there is a primary exactly while a clean is going on,
      and only one, and while it cleans no thread runs, whatever threads are created, end, release or recover. */
  lemma SafeAlways(n: nat, events: seq<Event>, s: State)
    requires n >= 1 && Run(First(n), events, s)
    ensures s.count == |Within(s.mode, RUNNING)| && |Within(s.mode, PRIMARY)| == (if s.cleaner == OFF then 0 else 1)
    ensures s.cleaner == CLEANING ==> forall t: nat {:trigger s.mode[t]} :: t < |s.mode| ==> s.mode[t] != RUNNING
    ensures s.cleaner == CLEANING ==> forall t: nat {:trigger s.mode[t]} :: t < |s.mode| && s.mode[t] == PRIMARY ==>
        t !in s.waiting
  {
    FirstIsOk(n);
    RunKeepsInv(First(n), events, s);
    forall t: nat | t < |s.mode| && s.cleaner == CLEANING
        ensures s.mode[t] != RUNNING && (s.mode[t] == PRIMARY ==> t !in s.waiting) {
      Inhabited(s.mode, t);
      assert ThreadOk(s, t);
    }
  }

  /** No thread starts to run while another cleans: only the end of the clean makes any run again. */
  lemma NobodyRunsDuringCleaning(s: State, e: Event, t: nat)
    requires Inv(s) && s.cleaner == CLEANING && Enabled(s, e) && t < |s.mode| && After(s, e).mode[t] == RUNNING
    ensures e == Finish(t) && After(s, e).cleaner == OFF
  {
    Inhabited(s.mode, t);
    if e.t < |s.mode| { Inhabited(s.mode, e.t); }
  }

  // ------------------------------------------------------------------ whose turn it is

  /** The step makes slot u a running thread. */
  predicate Creates(e: Event, u: nat) { e.Create? && e.u == u && e.ok }

  /** A thread's mode is changed by nobody else, but for the creation that makes a void slot a thread. */
  lemma OthersKeepMode(s: State, e: Event, u: nat)
    requires Enabled(s, e) && u < |s.mode| && e.t != u && !Creates(e, u)
    ensures |After(s, e).mode| == |s.mode| && After(s, e).mode[u] == s.mode[u] &&
        (u in After(s, e).waiting <==> u in s.waiting)
  {
  }

  /** A thread that does not run cannot start a clean, give up its heap, create a thread or end; one that has given
      its heap up may ask for it back; a void slot does nothing at all and is free for whoever runs. */
  lemma WhatModesAllow(s: State, t: nat)
    requires Inv(s) && t < |s.mode|
    ensures forall e: Event {:trigger Enabled(s, e)} ::
        e.t == t && Enabled(s, e) && s.mode[t] != RUNNING ==> e.Wake? || e.Finish? || e.Recover? || e.Spurious?
    ensures s.mode[t] == VOID ==> forall e: Event {:trigger Enabled(s, e)} :: e.t == t ==> !Enabled(s, e)
    ensures s.mode[t] == VOID ==> forall u: nat, ok {:trigger Create(u, t, ok)} ::
        u < |s.mode| && s.mode[u] == RUNNING ==> Enabled(s, Create(u, t, ok))
  {
    assert ThreadOk(s, t);
  }

  /** A thread that has ended does nothing any more, whatever the others do: it is never woken, cleans nothing, gets
      no heap back.  Until one of them creates a new thread in its slot, any that runs may do that. */
  lemma EndedIsGone(s: State, t: nat, events: seq<Event>, s': State)
    requires Inv(s) && Enabled(s, Exit(t)) && Run(After(s, Exit(t)), events, s')
    requires forall i {:trigger events[i]} :: 0 <= i < |events| ==> !Creates(events[i], t)
    ensures |s'.mode| == |s.mode| && s'.mode[t] != RUNNING
    ensures forall e: Event {:trigger Enabled(s', e)} :: e.t == t ==> !Enabled(s', e)
    ensures forall u: nat, ok {:trigger Create(u, t, ok)} ::
        u < |s'.mode| && s'.mode[u] == RUNNING ==> Enabled(s', Create(u, t, ok))
  {
    StepKeepsInv(s, Exit(t));
    RunKeepsInv(After(s, Exit(t)), events, s');
    StaysVoid(After(s, Exit(t)), t, events, s');
    WhatModesAllow(s', t);
  }

  lemma {:induction false} StaysVoid(s: State, t: nat, events: seq<Event>, s': State)
    requires Inv(s) && Run(s, events, s') && t < |s.mode| && s.mode[t] == VOID
    requires forall i {:trigger events[i]} :: 0 <= i < |events| ==> !Creates(events[i], t)
    ensures |s'.mode| == |s.mode| && s'.mode[t] == VOID
    decreases |events|
  {
    if events != [] {
      var e := events[0];
      WhatModesAllow(s, t);
      assert Enabled(s, e) && !Creates(e, t);
      OthersKeepMode(s, e, t);
      StepKeepsInv(s, e);
      forall i | 0 <= i < |events[1..]| ensures !Creates(events[1..][i], t) {
        assert events[1..][i] == events[i + 1];
      }
      StaysVoid(After(s, e), t, events[1..], s');
    }
  }

  /** A thread that has given its heap up may ask for it back, whatever the others have done since, and can do nothing
      else; it then runs at once unless there is a clean going on, and otherwise waits for its end. */
  lemma ReleasedMayRecover(s: State, t: nat, events: seq<Event>, s': State)
    requires Inv(s) && Enabled(s, Release(t)) && Run(After(s, Release(t)), events, s')
    requires forall i {:trigger events[i]} :: 0 <= i < |events| ==> events[i].t != t
    ensures Enabled(s', Recover(t))
    ensures forall e: Event {:trigger Enabled(s', e)} :: e.t == t && Enabled(s', e) ==> e == Recover(t)
    ensures if s'.cleaner == OFF then After(s', Recover(t)).mode[t] == RUNNING
        else t in After(s', Recover(t)).waiting && After(s', Recover(t)).mode == s'.mode
  {
    var s1 := After(s, Release(t));
    StepKeepsInv(s, Release(t));
    assert ThreadOk(s, t);
    RunKeepsInv(s1, events, s');
    StaysBlocked(s1, t, events, s');
    assert ThreadOk(s', t);
  }

  lemma {:induction false} StaysBlocked(s: State, t: nat, events: seq<Event>, s': State)
    requires Inv(s) && Run(s, events, s') && t < |s.mode| && s.mode[t] == BLOCKED && t !in s.waiting
    requires forall i {:trigger events[i]} :: 0 <= i < |events| ==> events[i].t != t
    ensures |s'.mode| == |s.mode| && s'.mode[t] == BLOCKED && t !in s'.waiting
    decreases |events|
  {
    if events != [] {
      var e := events[0];
      OthersKeepMode(s, e, t);
      StepKeepsInv(s, e);
      forall i | 0 <= i < |events[1..]| ensures events[1..][i].t != t {
        assert events[1..][i] == events[i + 1];
      }
      StaysBlocked(After(s, e), t, events[1..], s');
    }
  }

  /** A thread that starts a clean when none is going on is its primary: until it has finished, the clean goes on and
      nobody else can finish it, start another or become its primary. */
  lemma StarterFinishes(s: State, t: nat, roots: bool, events: seq<Event>, s': State)
    requires Inv(s) && Enabled(s, StartHeapcleaning(t, roots)) && s.cleaner == OFF
    requires Run(After(s, StartHeapcleaning(t, roots)), events, s')
    requires forall i {:trigger events[i]} :: 0 <= i < |events| ==> events[i] != Finish(t)
    ensures s'.cleaner != OFF && s'.round == s.round + 1
    ensures forall u: nat {:trigger s'.mode[u]} :: u < |s'.mode| ==> (s'.mode[u] == PRIMARY <==> u == t)
    ensures forall u: nat {:trigger Enabled(s', Finish(u))} ::
        Enabled(s', Finish(u)) ==> u == t && s'.cleaner == CLEANING
  {
    var s1 := After(s, StartHeapcleaning(t, roots));
    StepKeepsInv(s, StartHeapcleaning(t, roots));
    RunKeepsInv(s1, events, s');
    StaysPrimary(s1, t, events, s');
    forall u: nat | u < |s'.mode| && s'.mode[u] == PRIMARY ensures u == t { OnlyPrimary(s'.mode, t, u); }
    assert ThreadOk(s', t);
  }

  lemma {:induction false} StaysPrimary(s: State, t: nat, events: seq<Event>, s': State)
    requires Inv(s) && Run(s, events, s') && t < |s.mode| && s.mode[t] == PRIMARY
    requires forall i {:trigger events[i]} :: 0 <= i < |events| ==> events[i] != Finish(t)
    ensures t < |s'.mode| && s'.mode[t] == PRIMARY && s'.cleaner != OFF && s'.round == s.round
    decreases |events|
  {
    NotPrimary(s, t);
    if events != [] {
      var e := events[0];
      PrimaryStays(s, t, e);
      StepKeepsInv(s, e);
      forall i | 0 <= i < |events[1..]| ensures events[1..][i] != Finish(t) {
        assert events[1..][i] == events[i + 1];
      }
      StaysPrimary(After(s, e), t, events[1..], s');
    }
  }

  lemma PrimaryStays(s: State, t: nat, e: Event)
    requires Inv(s) && Enabled(s, e) && t < |s.mode| && s.mode[t] == PRIMARY && e != Finish(t)
    ensures |After(s, e).mode| == |s.mode| && After(s, e).mode[t] == PRIMARY && After(s, e).round == s.round
  {
    NotPrimary(s, t);
    if e.t != t {
      OthersKeepMode(s, e, t);
      if e.Finish? { OnlyPrimary(s.mode, e.t, t); }
    }
  }

  /** A thread that is created runs: it may do whatever its creator may.  One that could not be started leaves every
      thread as it was. */
  lemma CreatedRuns(s: State, t: nat, u: nat)
    requires Inv(s) && Enabled(s, Create(t, u, true))
    ensures var s' := After(s, Create(t, u, true));
      Enabled(s', Release(u)) && Enabled(s', Exit(u)) && Enabled(s', StartHeapcleaning(u, true)) &&
          Enabled(s', Release(t)) && s'.count == s.count + 1
    ensures var s' := After(s, Create(t, u, false));
      s'.mode == s.mode && s'.count == s.count && s'.waiting == s.waiting && s'.cleaner == s.cleaner
  {
    RunnerIsOut(s, t);
  }

  /** The end of a clean: nobody cleans, the thread that did runs, and nobody else has changed. */
  lemma FinishedRuns(s: State, t: nat)
    requires Inv(s) && Enabled(s, Finish(t))
    ensures var s' := After(s, Finish(t));
      s'.cleaner == OFF && Enabled(s', Release(t)) && s'.count == 1 + s.count && forall u: nat {:trigger s'.mode[u]} ::
          u < |s.mode| == |s'.mode| && u != t ==> s'.mode[u] == s.mode[u]
  {
    assert ThreadOk(s, t);
  }

  // ------------------------------------------------------------------ nobody waits for nothing

  /** Whenever a step ends what a thread waits for, the thread is awake afterwards: every such change is
      broadcast before the mutex is released.  (A creation that fails undoes its change under the mutex.) */
  lemma WakeupIsSent(s: State, e: Event, t: nat)
    requires Inv(s) && Enabled(s, e) && t in s.waiting && t < |s.mode| && !MustWait(After(s, e), t) &&
        |After(s, e).mode| == |s.mode|
    ensures t !in After(s, e).asleep
  {
    StepKeepsInv(s, e);
    assert ThreadOk(After(s, e), t);
  }

  /** An event that gets something done: not a broken sleep, not a new thread. */
  predicate Works(e: Event) { !e.Spurious? && !e.Create? }

  predicate Alive(s: State, t: nat) { t < |s.mode| && s.mode[t] != VOID }

  predicate GetsOn(s: State, e: Event) { Enabled(s, e) && Works(e) && After(s, e) != s }

  /** Some thread can do something as long as there is one. */
  lemma NoDeadlock(s: State)
    requires Inv(s)
    ensures (exists e {:trigger GetsOn(s, e)} :: GetsOn(s, e)) <==> (exists t: nat {:trigger Alive(s, t)} :: Alive(s,
        t))
  {
    if e :| GetsOn(s, e) {
      assert ThreadOk(s, e.t);
      assert Alive(s, e.t);
    }
    if t: nat :| Alive(s, t) {
      var e := NextStep(s, t);
    }
  }

  lemma NextStep(s: State, t: nat) returns (e: Event)
    requires Inv(s) && Alive(s, t)
    ensures GetsOn(s, e)
  {
    if s.cleaner != OFF {
      e := CleaningGoesOn(s);
    } else {
      assert ThreadOk(s, t);
      NotPrimary(s, t);
      e := if s.mode[t] == RUNNING then Release(t) else if t in s.waiting then Wake(t) else Recover(t);
      assert After(s, e).count != s.count;
    }
  }

  lemma CleaningGoesOn(s: State) returns (e: Event)
    requires Inv(s) && s.cleaner != OFF
    ensures GetsOn(s, e)
  {
    var p := Within(s.mode, PRIMARY);
    assert p != {};
    var t :| t in p;
    assert ThreadOk(s, t);
    if s.cleaner == CLEANING {
      e := Finish(t);
    } else if t !in s.asleep {
      e := Wake(t);
    } else {
      assert Within(s.mode, RUNNING) != {};
      var u :| u in Within(s.mode, RUNNING);
      e := StartHeapcleaning(u, false);
      assert After(s, e).count != s.count;
    }
  }

  /** Once it is over, every thread that waits can run again. */
  lemma AllMayResume(s: State, t: nat)
    requires Inv(s) && s.cleaner == OFF && t in s.waiting
    ensures t < |s.mode| && Enabled(s, Wake(t)) && After(s, Wake(t)).mode[t] == RUNNING
  {
    assert ThreadOk(s, t);
    NotPrimary(s, t);
  }

  // ------------------------------------------------------------------ the start of a clean ends

  /** How far a clean is from having started: threads still running, threads about to look again, threads about
      to ask for their heap back. */
  function Recovering(s: State): set<nat> { Within(s.mode, BLOCKED) - s.waiting }

  predicate Fewer(a: (nat, nat, nat), b: (nat, nat, nat)) {
    a.0 < b.0 || (a.0 == b.0 && (a.1 < b.1 || (a.1 == b.1 && a.2 < b.2)))
  }

  function Distance(s: State): (nat, nat, nat) { (|Within(s.mode, RUNNING)|, |s.waiting - s.asleep|, |Recovering(s)|) }

  lemma OneRunsLess(s: State, t: nat, m: Mode)
    requires t < |s.mode| && s.mode[t] == RUNNING && m != RUNNING
    ensures |Within(s.mode[t := m], RUNNING)| < |Within(s.mode, RUNNING)|
  {
    CountChanged(s.mode, t, m, RUNNING);
  }

  lemma PrimaryLooksAgain(s: State, t: nat)
    requires Inv(s) && s.cleaner == STARTING && Enabled(s, Wake(t)) && s.mode[t] == PRIMARY && s.count > 0
    ensures Fewer(Distance(After(s, Wake(t))), Distance(s))
  {
    var s' := After(s, Wake(t));
    assert s'.waiting == s.waiting && s'.waiting - s'.asleep == (s.waiting - s.asleep) - {t} &&
        t in s.waiting - s.asleep;
  }

  lemma OthersLookAgain(s: State, t: nat)
    requires Inv(s) && s.cleaner == STARTING && Enabled(s, Wake(t)) && s.mode[t] != PRIMARY
    ensures Fewer(Distance(After(s, Wake(t))), Distance(s))
  {
    var s' := After(s, Wake(t));
    assert s'.waiting == s.waiting && s'.waiting - s'.asleep == (s.waiting - s.asleep) - {t} &&
        t in s.waiting - s.asleep;
  }

  lemma AsksForItsHeap(s: State, t: nat)
    requires Inv(s) && s.cleaner == STARTING && Enabled(s, Recover(t))
    ensures Fewer(Distance(After(s, Recover(t))), Distance(s))
  {
    var s' := After(s, Recover(t));
    assert ThreadOk(s, t);
    assert s'.waiting - s'.asleep == s.waiting - s.asleep && Recovering(s') == Recovering(s) - {t} &&
        t in Recovering(s);
  }

  /** While a clean is starting, every event but a creation or a broken sleep brings it nearer, unless it has
      started. */
  lemma StartingEnds(s: State, e: Event)
    requires Inv(s) && s.cleaner == STARTING && Enabled(s, e) && Works(e)
    ensures After(s, e).cleaner == CLEANING || (After(s, e).cleaner == STARTING &&
        Fewer(Distance(After(s, e)), Distance(s)))
  {
    hide Distance, Inv;
    match e
    case StartHeapcleaning(t, _) =>
      OneRunsLess(s, t, SECONDARY);
      DistanceFirst(After(s, e), s);
    case Release(t) =>
      OneRunsLess(s, t, BLOCKED);
      DistanceFirst(After(s, e), s);
    case Exit(t) =>
      OneRunsLess(s, t, VOID);
      DistanceFirst(After(s, e), s);
    case Wake(t) =>
      if s.mode[t] != PRIMARY { OthersLookAgain(s, t); } else if s.count > 0 { PrimaryLooksAgain(s, t); }
    case Recover(t) => AsksForItsHeap(s, t);
    case Finish(t) => NotFinished(s, t);
  }

  lemma DistanceFirst(a: State, b: State)
    requires |Within(a.mode, RUNNING)| < |Within(b.mode, RUNNING)|
    ensures Fewer(Distance(a), Distance(b))
  {
  }

  lemma NotFinished(s: State, t: nat)
    requires Inv(s) && s.cleaner == STARTING
    ensures !Enabled(s, Finish(t))
  {
    assert ThreadOk(s, t);
  }

  // ------------------------------------------------------------------ extra roots

  /** The extra roots of a thread are known to the present or last clean if and only if it handed them in during
      that very clean.  Each thread hands them in at most once, so the buffer holds no more than one lot each. */
  lemma RootsAreThoseOfThisRound(n: nat, events: seq<Event>, s: State, t: nat)
    requires n >= 1 && Run(First(n), events, s) && t < |s.mode|
    ensures |s.joined| == |s.mode| && (t in s.extraRoots <==> s.joined[t] == s.round > 0) && |s.extraRoots| <= |s.mode|
  {
    FirstIsOk(n);
    RunKeepsInv(First(n), events, s);
    assert ThreadOk(s, t);
    NoMoreThan(s.extraRoots, |s.mode|);
  }

  /** A run, up to its last event. */
  lemma {:induction false} RunToLast(s: State, events: seq<Event>, s': State) returns (m: State)
    requires Run(s, events, s') && events != []
    ensures Run(s, events[..|events| - 1], m)
    ensures Enabled(m, events[|events| - 1]) && s' == After(m, events[|events| - 1])
    decreases |events|
  {
    if |events| == 1 {
      m := s;
    } else {
      m := RunToLast(After(s, events[0]), events[1..], s');
      assert events[..|events| - 1][1..] == events[1..][..|events[1..]| - 1];
    }
  }

  lemma {:induction false} RunIsOne(s: State, events: seq<Event>, a: State, b: State)
    requires Run(s, events, a) && Run(s, events, b)
    ensures a == b
    decreases |events|
  {
    if events != [] { RunIsOne(After(s, events[0]), events[1..], a, b); }
  }

  /** A clean is started by a call of the heapcleaner while none is going on, and by nothing else. */
  lemma RoundsAreStarts(s: State, e: Event)
    requires Enabled(s, e)
    ensures After(s, e).round == s.round + if e.StartHeapcleaning? && s.cleaner == OFF then 1 else 0
  {
  }

  /** Event i is a call of the heapcleaner by t with extra roots, made in round r. */
  ghost predicate HandsIn(s: State, events: seq<Event>, i: nat, t: nat, r: nat) {
    i < |events| && events[i] == StartHeapcleaning(t, true) && exists m :: Run(s, events[..i + 1], m) && m.round == r
  }

  lemma {:induction false} RoundsGrow(s: State, events: seq<Event>, s': State, i: nat, t: nat, r: nat)
    requires Run(s, events, s') && HandsIn(s, events, i, t, r)
    ensures r <= s'.round
    decreases |events|
  {
    var m := RunToLast(s, events, s');
    var last := |events| - 1;
    RoundsAreStarts(m, events[last]);
    if i == last {
      assert events[..i + 1] == events;
      var m' :| Run(s, events[..i + 1], m') && m'.round == r;
      RunIsOne(s, events, s', m');
    } else {
      assert events[..last][..i + 1] == events[..i + 1];
      RoundsGrow(s, events[..last], m, i, t, r);
    }
  }

  /** The extra roots known to a clean are those handed in by calls made in its own round: told from the events of
      the run alone. */
  lemma {:induction false} RootsByHistory(n: nat, events: seq<Event>, s: State, t: nat)
    requires n >= 1 && Run(First(n), events, s)
    ensures t in s.extraRoots <==> exists i: nat {:trigger HandsIn(First(n), events, i, t, s.round)} ::
        HandsIn(First(n), events, i, t, s.round)
    decreases |events|
  {
    var s0 := First(n);
    if events != [] {
      var last := |events| - 1;
      var m := RunToLast(s0, events, s);
      var e := events[last];
      RoundsAreStarts(m, e);
      RootsByHistory(n, events[..last], m, t);
      forall i: nat, r: nat | i < last ensures HandsIn(s0, events, i, t, r) <==> HandsIn(s0, events[..last], i, t, r) {
        assert events[..last][..i + 1] == events[..i + 1];
      }
      assert events[..last + 1] == events;
      assert e == StartHeapcleaning(t, true) ==> HandsIn(s0, events, last, t, s.round);
      if s.round != m.round {
        forall i: nat | i < last ensures !HandsIn(s0, events, i, t, s.round) {
          if HandsIn(s0, events, i, t, s.round) { RoundsGrow(s0, events[..last], m, i, t, s.round); }
        }
      }
    }
  }

  lemma {:induction false} NoMoreThan(list: seq<nat>, n: nat)
    requires NoRepeats(list) && forall t: nat {:trigger t in list} :: t in list ==> t < n
    ensures |list| <= n
  {
    var all := set t: nat | t < n && Below(t, n);
    RangeSize(n);
    ListSize(list, all);
  }

  predicate Below(t: nat, n: nat) { t < n }

  lemma {:induction false} RangeSize(n: nat)
    ensures |set t: nat | t < n && Below(t, n)| == n
  {
    if n > 0 {
      var n1 := n - 1;
      var below := set t: nat | t < n1 && Below(t, n1);
      RangeSize(n1);
      assert (set t: nat | t < n && Below(t, n)) == below + {n1};
    }
  }

  lemma {:induction false} ListSize(list: seq<nat>, all: set<nat>)
    requires NoRepeats(list) && forall t: nat {:trigger t in list} :: t in list ==> t in all
    ensures |list| <= |all|
  {
    if list != [] {
      var last := |list| - 1;
      forall t: nat | t in list[..last] ensures t in all - {list[last]} {
        var i :| 0 <= i < |list[..last]| && list[..last][i] == t;
        assert list[i] in list && list[i] != list[last];
      }
      assert list[last] in list;
      ListSize(list[..last], all - {list[last]});
    }
  }

  /** A thread that is still waiting for one clean when the next begins has its extra roots in the first only. */
  lemma RootsCanBeMissed() returns (events: seq<Event>, s: State)
    ensures Run(First(2), events, s)
    ensures s.cleaner == CLEANING && s.mode == [PRIMARY, SECONDARY] && s.joined == [0, 1] && s.extraRoots == []
  {
    var e0, e1, e2 := Create(0, 1, true), StartHeapcleaning(0, false), StartHeapcleaning(1, true);
    var s0 := First(2);
    var s1 := After(s0, e0);
    assert s1.mode == [RUNNING, RUNNING] && s1.joined == [0, 0];
    var s2 := After(s1, e1);
    var s3 := After(s2, e2);
    assert s3.mode == [PRIMARY, SECONDARY] && s3.joined == [0, 1];
    var rest;
    rest, s := NextRoundBegins(s3);
    OneMore(s2, e2, rest, s);
    OneMore(s1, e1, [e2] + rest, s);
    OneMore(s0, e0, [e1] + ([e2] + rest), s);
    events := [e0] + ([e1] + ([e2] + rest));
  }

  lemma NextRoundBegins(s3: State) returns (events: seq<Event>, s: State)
    requires s3 == State([PRIMARY, SECONDARY], 0, STARTING, {0, 1}, {1}, [1], 1, [0, 1])
    ensures Run(s3, events, s)
    ensures s.cleaner == CLEANING && s.mode == [PRIMARY, SECONDARY] && s.joined == [0, 1] && s.extraRoots == []
  {
    var e3, e4, e5 := Wake(0), Finish(0), StartHeapcleaning(0, false);
    var s4 := After(s3, e3);
    var s5 := After(s4, e4);
    s := After(s5, e5);
    OneMore(s5, e5, [], s);
    OneMore(s4, e4, [e5], s);
    OneMore(s3, e3, [e4] + [e5], s);
    events := [e3] + ([e4] + [e5]);
  }

  lemma OneMore(s: State, e: Event, rest: seq<Event>, s': State)
    requires Enabled(s, e) && Run(After(s, e), rest, s')
    ensures Run(s, [e] + rest, s')
  {
    assert ([e] + rest)[1..] == rest;
  }
}
