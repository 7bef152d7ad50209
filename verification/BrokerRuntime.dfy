/**
  Starting and stopping a broker's accept thread and workers, and retrying a stop
  (src/agent_container/broker/runtime.py:187-353), with the session whose `close`
  the runtime calls back (egress_broker.py:168-185, 230-245; github_broker.py and
  handover_broker.py have the same).  How a blocking or a system call turns out is a
  parameter.
 */
module BrokerRuntime {

  type Worker = nat

  // How one call of `start` fares: whether the listener can be opened and the
  // thread started, and what giving up meets.
  datatype Beginning = Beginning(opens: bool, starts: bool, listenerCloses: bool, sessionCloses: bool, removes: bool)

  // What one call of `stop` meets: which callbacks and system calls succeed, and
  // which threads are still there when the joins return.  `listenerCloses` is the
  // runtime's own attempt to close the listener, `sessionCloses` the session's.
  datatype Outcome = Outcome(deactivates: bool, listenerCloses: bool, acceptEnds: bool, working: set<Worker>,
                             sessionCloses: bool, removes: bool)

  datatype Result = Stopped | DidNotStop | DeactivateFailed | CleanupFailed | Failed

  class SocketBrokerRuntime {
    const deactivateAfterJoin: bool
    var stopEvent: bool
    var failed: bool
    var exited: bool
    var threadStarted: bool
    var listener: bool          // the runtime has not given its listener up
    var workers: set<Worker>
    var acceptAlive: bool
    ghost var handling: set<Worker>
    ghost var deactivated: bool

    // the session
    var sessionClosed: bool
    var sessionListener: bool   // the session has not given the listener up
    var artifacts: bool
    var cleanupComplete: bool
    ghost var socketOpen: bool

    // Every running handler is a registered worker, and without an accept thread
    // there are none.  The session gives the listener up only once it is closed.
    // Once exited, nothing runs, and a runtime that had started has been deactivated.
    ghost predicate Valid()
      reads this
    {
      && handling <= workers && (acceptAlive ==> threadStarted) && (!threadStarted ==> workers == {})
      && (socketOpen ==> sessionListener)
      && (cleanupComplete ==> sessionClosed && !sessionListener && !artifacts)
      && (exited ==> !acceptAlive && workers == {} && handling == {} && cleanupComplete)
      && (exited && threadStarted ==> stopEvent && deactivated)
    }

    constructor (deactivateAfterJoin: bool)
      ensures Valid() && !exited && !threadStarted && !listener && !stopEvent && !failed && !sessionClosed
              && !socketOpen
      ensures this.deactivateAfterJoin == deactivateAfterJoin
    {
      this.deactivateAfterJoin := deactivateAfterJoin;
      stopEvent, failed, exited, threadStarted, listener := false, false, false, false, false;
      workers, handling := {}, {};
      acceptAlive, deactivated := false, false;
      sessionClosed, sessionListener, artifacts, cleanupComplete, socketOpen := false, false, true, false, false;
    }

    // The `close` of a session.
    method CloseSession(closes: bool, removes: bool) returns (ok: bool)
      requires Valid()
      modifies this`sessionClosed, this`sessionListener, this`artifacts, this`cleanupComplete, this`socketOpen
      ensures Valid() && sessionClosed
      ensures ok == cleanupComplete == (old(cleanupComplete) || ((old(sessionListener) ==> closes) && removes))
      ensures sessionListener == (old(sessionListener) && !closes)
      ensures socketOpen == (old(socketOpen) && !closes)
    {
      if cleanupComplete {
        return true;
      }
      sessionClosed := true;
      var cleanupFailed := false;
      if sessionListener {
        if closes {
          sessionListener, socketOpen := false, false;
        } else {
          cleanupFailed := true;
        }
      }
      if removes {
        artifacts := false;
      } else {
        cleanupFailed := true;
      }
      if cleanupFailed {
        return false;
      }
      cleanupComplete := true;
      return true;
    }

    // `start`.  A failed start closes what it opened, as far as that succeeds, and
    // exits only when the session has given everything up.
    method Start(b: Beginning) returns (ok: bool)
      requires Valid()
      modifies this
      ensures Valid()
      ensures ok <==> old(!threadStarted && !exited && !sessionClosed && !sessionListener) && b.opens && b.starts
      ensures threadStarted == (old(threadStarted) || ok) && acceptAlive == (old(acceptAlive) || ok)
      ensures ok ==> listener && socketOpen && !exited
      ensures !ok && old(!threadStarted && !exited) ==> exited == cleanupComplete && sessionClosed
      ensures !ok && old(!threadStarted && !exited && !socketOpen) && (b.listenerCloses || b.sessionCloses)
              ==> !socketOpen
      ensures !ok && old(threadStarted || exited)
              ==> exited == old(exited) && listener == old(listener) && socketOpen == old(socketOpen)
      ensures workers == old(workers) && stopEvent == old(stopEvent) && failed == old(failed)
    {
      if threadStarted || exited {
        return false;
      }
      if b.opens && !sessionClosed && !sessionListener {
        sessionListener, socketOpen, listener := true, true, true;
        if b.starts {
          threadStarted, acceptAlive := true, true;
          return true;
        }
        if b.listenerCloses {
          socketOpen := false;
        }
      }
      exited := CloseSession(b.sessionCloses, b.removes);
      return false;
    }

    // `_start_worker` on the accept thread: registered before it is started.
    method RegisterWorker(w: Worker)
      requires Valid() && acceptAlive && w !in workers
      modifies this`workers
      ensures Valid() && workers == old(workers) + {w}
    {
      workers := workers + {w};
    }

    method LaunchWorker(w: Worker, starts: bool)
      requires Valid() && acceptAlive && w in workers && w !in handling
      modifies this`workers, this`handling
      ensures Valid()
      ensures if starts then handling == old(handling) + {w} && workers == old(workers)
              else handling == old(handling) && workers == old(workers) - {w}
    {
      if starts {
        handling := handling + {w};
      } else {
        workers := workers - {w};
      }
    }

    // The end of `_run_worker`; an error other than of the operating system stops
    // the broker.
    method WorkerEnds(w: Worker, error: bool)
      requires Valid() && w in handling
      modifies this`workers, this`handling, this`stopEvent, this`failed
      ensures Valid() && workers == old(workers) - {w} && handling == old(handling) - {w}
      ensures stopEvent == (old(stopEvent) || error) && failed == (old(failed) || error)
    {
      if error {
        stopEvent, failed := true, true;
      }
      handling := handling - {w};
      workers := workers - {w};
    }

    // The end of `_serve`.
    method AcceptEnds(error: bool)
      requires Valid() && acceptAlive
      modifies this`acceptAlive, this`failed
      ensures Valid() && !acceptAlive && failed == (old(failed) || error)
    {
      acceptAlive := false;
      failed := failed || error;
    }

    // `stop`.  It exits exactly when the threads have ended, deactivation succeeded
    // and the session has given everything up, and otherwise leaves the rest to a
    // later call.  What has exited has its listener closed, whoever closed it.
    method Stop(o: Outcome) returns (r: Result)
      requires Valid()
      modifies this
      ensures Valid()
      ensures var alive := old(acceptAlive) && !o.acceptEnds;
              var left := if old(acceptAlive) then o.working else old(workers) * o.working;
              var ended := !alive && left == {};
              var cleaned := old(cleanupComplete) || ((old(sessionListener) ==> o.sessionCloses) && o.removes);
              old(!exited) ==>
                && stopEvent && acceptAlive == alive && workers == left && exited == (ended && cleaned && o.deactivates)
                && listener == (old(listener) && !o.listenerCloses)
                && socketOpen == (old(socketOpen) && !(old(listener) && o.listenerCloses)
                   && !(ended && o.sessionCloses))
                && r == (if !ended then DidNotStop
                         else if !o.deactivates then DeactivateFailed
                         else if !cleaned || (old(listener) && !o.listenerCloses) then CleanupFailed
                         else if old(failed) then Failed else Stopped)
      ensures exited ==> !acceptAlive && workers == {} && handling == {} && !socketOpen && !artifacts
      ensures old(exited) ==> exited && r == Stopped
      ensures r == Stopped ==> exited
      ensures failed == old(failed) && threadStarted == old(threadStarted)
    {
      if exited {
        return Stopped;
      }
      var deactivateFailed, cleanupFailed, joined := WindDown(o);
      if !joined {
        return DidNotStop;
      }
      r := GiveUp(o, deactivateFailed, cleanupFailed);
    }

    // `stop` up to its joins and the deactivation before or after them.
    method WindDown(o: Outcome) returns (deactivateFailed: bool, cleanupFailed: bool, joined: bool)
      requires Valid() && !exited
      modifies this`stopEvent, this`listener, this`socketOpen, this`sessionClosed, this`deactivated
      modifies this`acceptAlive, this`workers, this`handling
      ensures Valid() && stopEvent && deactivateFailed == !o.deactivates && (deactivated || deactivateFailed)
      ensures cleanupFailed == (old(listener) && !o.listenerCloses) && joined == (!acceptAlive && workers == {})
      ensures acceptAlive == (old(acceptAlive) && !o.acceptEnds)
      ensures workers == if old(acceptAlive) then o.working else old(workers) * o.working
      ensures listener == (old(listener) && !o.listenerCloses)
      ensures socketOpen == (old(socketOpen) && !(old(listener) && o.listenerCloses))
    {
      stopEvent := true;
      if !deactivateAfterJoin {
        deactivateFailed := Deactivate(o.deactivates);
      }
      cleanupFailed := CloseListener(o.listenerCloses);
      joined := JoinAll(o);
      if deactivateAfterJoin {
        deactivateFailed := Deactivate(o.deactivates);
      }
    }

    // The runtime's own attempt to close the listener.
    method CloseListener(closes: bool) returns (failure: bool)
      requires Valid()
      modifies this`listener, this`socketOpen
      ensures Valid() && failure == (old(listener) && !closes)
      ensures listener == (old(listener) && !closes) && socketOpen == (old(socketOpen) && !(old(listener) && closes))
    {
      if listener && closes {
        listener, socketOpen := false, false;
      }
      return listener;
    }

    // The end of `stop` once all threads have ended.
    method GiveUp(o: Outcome, deactivateFailed: bool, cleanupFailed: bool) returns (r: Result)
      requires Valid() && !exited && stopEvent && !acceptAlive && workers == {} && (deactivated || deactivateFailed)
      modifies this`exited, this`sessionClosed, this`sessionListener, this`artifacts, this`cleanupComplete,
        this`socketOpen
      ensures Valid()
      ensures var cleaned := old(cleanupComplete) || ((old(sessionListener) ==> o.sessionCloses) && o.removes);
              && exited == (cleaned && !deactivateFailed)
              && r == (if deactivateFailed then DeactivateFailed
                       else if !cleaned || cleanupFailed then CleanupFailed
                       else if failed then Failed else Stopped)
      ensures socketOpen == (old(socketOpen) && !o.sessionCloses)
    {
      var closed := CloseSession(o.sessionCloses, o.removes);
      if closed && !deactivateFailed {
        exited := true;
      }
      if deactivateFailed {
        return DeactivateFailed;
      }
      if !closed || cleanupFailed {
        return CleanupFailed;
      }
      if failed {
        return Failed;
      }
      return Stopped;
    }

    // `_try_deactivate`, with its result negated.
    method Deactivate(succeeds: bool) returns (failure: bool)
      requires Valid()
      modifies this`sessionClosed, this`deactivated
      ensures Valid() && failure == !succeeds && deactivated == (old(deactivated) || succeeds)
    {
      if succeeds {
        sessionClosed, deactivated := true, true;
      }
      return !succeeds;
    }

    // The two joins: the accept thread, then the workers it left, while the threads
    // go on as `o` says.
    method JoinAll(o: Outcome) returns (ok: bool)
      requires Valid() && !exited
      modifies this`acceptAlive, this`workers, this`handling
      ensures Valid()
      ensures acceptAlive == (old(acceptAlive) && !o.acceptEnds)
      ensures workers == if old(acceptAlive) then o.working else old(workers) * o.working
      ensures ok <==> !acceptAlive && workers == {}
    {
      var may := acceptAlive;
      acceptAlive := acceptAlive && !o.acceptEnds;
      workers := if may then o.working else workers * o.working;
      handling := handling * workers;
      ok := !acceptAlive && workers == {};
    }

    // A stop that meets no failure ends the runtime and closes everything, however
    // earlier ones went.
    method StopAgain(first: Outcome, second: Outcome) returns (r: Result)
      requires Valid() && threadStarted && !exited && !failed
      requires second.deactivates && second.listenerCloses && second.acceptEnds && second.working == {}
      requires second.sessionCloses && second.removes
      modifies this
      ensures Valid() && exited && r == Stopped && !socketOpen && !artifacts
    {
      var _ := Stop(first);
      r := Stop(second);
    }
  }
}
