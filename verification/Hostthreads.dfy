/** The functions of the stop-the-world protocol, in the pieces that run without letting go of the mutex:
    hostthread-heapcleaner-stuff.c and hostthread-on-posix-threads.c. */
module Hostthreads {
  import opened StopTheWorld

  class Runtime {
    var mode: seq<Mode>
    var running_hostthreads_count: int
    var heapcleaner_state: Cleaner
    var extra_heapcleaner_roots: seq<nat>

    // Which threads are in a wait loop, and which of them have not been woken.
    var waiting: set<nat>
    var asleep: set<nat>

    // The number of the present or last clean, and the one in which each thread handed in extra roots.
    ghost var round: nat
    ghost var joined: seq<nat>

    ghost function State(): StopTheWorld.State
      reads this
    {
      StopTheWorld.State(mode, running_hostthreads_count, heapcleaner_state, waiting, asleep, extra_heapcleaner_roots,
          round, joined)
    }

    constructor (n: nat)
      requires n >= 1
      ensures State() == First(n) && Inv(State())
    {
      mode, running_hostthreads_count, heapcleaner_state := seq(n, t => if t == 0 then RUNNING else VOID), 1, OFF;
      waiting, asleep, extra_heapcleaner_roots, round, joined := {}, {}, [], 0, seq(n, _ => 0);
      new;
      FirstIsOk(n);
    }

    /** Check the count against the table. */
    method ValidateRunningHostthreadsCount() returns (ok: bool)
      ensures ok <==> running_hostthreads_count == |Within(mode, RUNNING)|
    {
      var running_hostthreads, i := 0, 0;
      assert Within(mode[..0], RUNNING) == {};
      while i < |mode|
        invariant 0 <= i <= |mode| && running_hostthreads == |Within(mode[..i], RUNNING)|
      {
        WithinPrefix(mode, i, RUNNING);
        if mode[i] == RUNNING {
          running_hostthreads := running_hostthreads + 1;
        }
        i := i + 1;
      }
      assert mode[..|mode|] == mode;
      return running_hostthreads == running_hostthreads_count;
    }

    method CondBroadcast()
      modifies this`asleep
      ensures asleep == {}
    {
      asleep := {};
    }

    method CondWait(t: nat)
      modifies this`waiting, this`asleep
      ensures waiting == old(waiting) + {t} && asleep == old(asleep) + {t}
    {
      waiting, asleep := waiting + {t}, asleep + {t};
    }

    /** The primary's wait loop, up to where it sleeps or leaves with the mutex released. */
    method AwaitOthers(t: nat)
      modifies this`waiting, this`asleep, this`heapcleaner_state
      ensures State() == PrimaryLoop(old(State()), t)
    {
      if running_hostthreads_count > 0 {
        CondWait(t);
        return;
      }
      waiting := waiting - {t};
      heapcleaner_state := CLEANING;
      CondBroadcast();
    }

    /** The wait loop of a secondary or of a thread that recovers its heap. */
    method AwaitEnd(t: nat)
      requires t < |mode|
      modifies this`waiting, this`asleep, this`mode, this`running_hostthreads_count
      ensures State() == OthersLoop(old(State()), t)
    {
      if heapcleaner_state != OFF {
        CondWait(t);
        return;
      }
      waiting := waiting - {t};
      mode := mode[t := RUNNING];
      running_hostthreads_count := running_hostthreads_count + 1;
      CondBroadcast();
    }

    method StartHeapcleaning(t: nat, roots: bool)
      requires Inv(State()) && Enabled(State(), Event.StartHeapcleaning(t, roots))
      modifies this
      ensures State() == After(old(State()), Event.StartHeapcleaning(t, roots)) && Inv(State())
    {
      StepKeepsInv(State(), Event.StartHeapcleaning(t, roots));
      if heapcleaner_state != OFF {
        if roots {
          extra_heapcleaner_roots := extra_heapcleaner_roots + [t];
        }
        joined := joined[t := if roots then round else 0];
        mode := mode[t := SECONDARY];
        running_hostthreads_count := running_hostthreads_count - 1;
        CondBroadcast();
        AwaitEnd(t);
        return;
      }
      var valid := ValidateRunningHostthreadsCount();
      assert valid;
      heapcleaner_state := STARTING;
      mode := mode[t := PRIMARY];
      running_hostthreads_count := running_hostthreads_count - 1;
      CondBroadcast();
      extra_heapcleaner_roots := if roots then [t] else [];
      round, joined := round + 1, joined[t := if roots then round + 1 else 0];
      AwaitOthers(t);
    }

    /** A woken thread has the mutex again. */
    method Woken(t: nat)
      requires Inv(State()) && Enabled(State(), Wake(t))
      modifies this
      ensures State() == After(old(State()), Wake(t)) && Inv(State())
    {
      StepKeepsInv(State(), Wake(t));
      if mode[t] == PRIMARY {
        AwaitOthers(t);
      } else {
        AwaitEnd(t);
      }
    }

    method FinishHeapcleaning(t: nat)
      requires Inv(State()) && Enabled(State(), Finish(t))
      modifies this
      ensures State() == After(old(State()), Finish(t)) && Inv(State())
    {
      StepKeepsInv(State(), Finish(t));
      heapcleaner_state := OFF;
      mode := mode[t := RUNNING];
      running_hostthreads_count := running_hostthreads_count + 1;
      CondBroadcast();
      assert waiting - {t} == waiting;
    }

    method ReleaseMythrylHeap(t: nat)
      requires Inv(State()) && Enabled(State(), Release(t))
      modifies this
      ensures State() == After(old(State()), Release(t)) && Inv(State())
    {
      StepKeepsInv(State(), Release(t));
      mode := mode[t := BLOCKED];
      running_hostthreads_count := running_hostthreads_count - 1;
      CondBroadcast();
    }

    method RecoverMythrylHeap(t: nat)
      requires Inv(State()) && Enabled(State(), Recover(t))
      modifies this
      ensures State() == After(old(State()), Recover(t)) && Inv(State())
    {
      StepKeepsInv(State(), Recover(t));
      AwaitEnd(t);
    }

    /** Create a thread in the first free slot; `started` says whether the operating system will. */
    method PthreadCreate(t: nat, started: bool) returns (slot: nat)
      requires Inv(State()) && t < |mode| && mode[t] == RUNNING
      modifies this
      ensures Inv(State()) && slot <= |old(mode)| && forall u {:trigger old(mode)[u]} ::
          0 <= u < slot ==> old(mode)[u] != VOID
      ensures if slot == |old(mode)| then State() == old(State())
              else Enabled(old(State()), Create(t, slot, started)) && State() == After(old(State()),
                  Create(t, slot, started))
    {
      slot := 0;
      while slot < |mode| && mode[slot] != VOID
        invariant slot <= |mode| && forall u {:trigger mode[u]} :: 0 <= u < slot ==> mode[u] != VOID
      {
        slot := slot + 1;
      }
      if slot == |mode| {
        return;
      }
      StepKeepsInv(State(), Create(t, slot, started));
      ghost var mode0 := mode;
      mode := mode[slot := RUNNING];
      running_hostthreads_count := running_hostthreads_count + 1;
      CondBroadcast();
      if !started {
        mode := mode[slot := VOID];
        running_hostthreads_count := running_hostthreads_count - 1;
        assert mode == mode0;
      }
    }

    /** The end of a thread, after its last call of the heapcleaner. */
    method PthreadExit(t: nat)
      requires Inv(State()) && Enabled(State(), Exit(t))
      modifies this
      ensures State() == After(old(State()), Exit(t)) && Inv(State())
    {
      StepKeepsInv(State(), Exit(t));
      mode := mode[t := VOID];
      running_hostthreads_count := running_hostthreads_count - 1;
      CondBroadcast();
    }
  }

  lemma WithinPrefix(mode: seq<Mode>, i: nat, m: Mode)
    requires i < |mode|
    ensures |Within(mode[..i + 1], m)| == |Within(mode[..i], m)| + if mode[i] == m then 1 else 0
  {
    var before, after := Within(mode[..i], m), Within(mode[..i + 1], m);
    assert i !in before;
    assert after == if mode[i] == m then before + {i} else before;
  }
}
