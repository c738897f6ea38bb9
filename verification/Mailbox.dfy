/** The handshake between the controller manager's thread and the I/O thread: a latest-wins mailbox
    under one mutex, a condition variable, and start / stop-and-join. One step is one lock region, one
    notification, one join, or the beginning or end of a transport operation. */
module Mailbox {
  import Cycle
  import Numeric
  import opened Worker

  /** What the caller does once the I/O thread is out of the way. `ran` is restart_async_after. */
  datatype Purpose = Switching(ran: bool) | Activating | Deactivating | CleaningUp

  datatype Caller =
    | Idle
    | NotifyPost
    | NotifyStop(why: Purpose)
    | Joining(why: Purpose)
    | Clearing(why: Purpose)
    | Using(why: Purpose, inOp: bool)
    | Starting(why: Purpose)

  /** Checking: about to take the mutex and look at the flags. Blocked: asleep in wait(). */
  datatype Thread =
    | Absent
    | Checking
    | Blocked
    | Busy(command: Post, n: nat, inOp: bool)
    | Exiting
    | Exited

  /** The last four fields only record the history: every command ever put in the mailbox, how many
      there were at the last start, which of them this thread has taken, and how many snapshots it has
      published. */
  datatype State = State(
    caller: Caller,
    thread: Thread,
    stop: bool,
    pending: bool,
    inFlight: bool,
    latest: Post,
    telemetry: Work,
    posts: seq<Post>,
    started: nat,
    taken: seq<nat>,
    done: nat)

  datatype Move =
    // write()
    | PostCommand(post: Post)
    | NotifyPosted
    // on_activate, perform_command_mode_switch, on_deactivate, on_cleanup and recover
    | Begin(why: Purpose)
    | NotifyStopping
    | Join
    | Clear
    | CallerOp
    | CallerOpDone
    | Finish(ok: bool, buffers: Work)
    | Start
    // the I/O thread
    | Wake
    | Check
    | ThreadOp
    | ThreadOpDone
    | Publish(snapshot: Work)
    | Exit

  /** What the members hold before the buffers are initialized for the first time. */
  const NO_POST := Post(Numeric.ZERO, [])

  const NO_TELEMETRY := Work([], [], [], false, false, Cycle.Stats(0, 0, 0, 0), [])

  function Initial(): State {
    State(Idle, Absent, false, false, false, NO_POST, NO_TELEMETRY, [NO_POST], 1, [], 0)
  }

  predicate Joinable(s: State) { !s.thread.Absent? }

  /** on_activate does not stop a running thread: lifecycle order is what keeps it absent. The switch
      remembers whether a thread was running. */
  predicate MayBegin(s: State, why: Purpose) {
    && s.caller.Idle?
    && (why.Activating? ==> !Joinable(s))
    && (why.Switching? ==> why.ran == Joinable(s))
  }

  predicate Enabled(s: State, m: Move) {
    match m
    case PostCommand(_) => s.caller.Idle?
    case NotifyPosted => s.caller.NotifyPost?
    case Begin(why) => MayBegin(s, why)
    case NotifyStopping => s.caller.NotifyStop?
    case Join => s.caller.Joining? && s.thread.Exited?
    case Clear => s.caller.Clearing?
    case CallerOp => s.caller.Using? && !s.caller.inOp
    case CallerOpDone => s.caller.Using? && s.caller.inOp
    case Finish(_, _) => s.caller.Using? && !s.caller.inOp
    case Start => s.caller.Starting?
    case Wake => s.thread.Blocked?
    case Check => s.thread.Checking?
    case ThreadOp => s.thread.Busy? && !s.thread.inOp
    case ThreadOpDone => s.thread.Busy? && s.thread.inOp
    case Publish(_) => s.thread.Busy? && !s.thread.inOp
    case Exit => s.thread.Exiting?
  }

  /** notify_one: a sleeping thread wakes up, any other is not affected. */
  function Notified(t: Thread): Thread { if t.Blocked? then Checking else t }

  /** The first lock region of stop_and_join; a switch skips it when no thread was running, and
      on_activate always. */
  function BeginStop(s: State, why: Purpose): State {
    if why == Activating || why == Switching(false) then s.(caller := Using(why, false))
    else if Joinable(s) then s.(stop := true, pending := true, caller := NotifyStop(why))
    else s.(stop := false, pending := false, inFlight := false, caller := Using(why, false))
  }

  /** async_io_init_buffers: the blank command, and a snapshot with nothing in it. */
  function InitBuffers(s: State, buffers: Work): State {
    var blank := BlankPost(|buffers.slots|);
    s.(stop := false, pending := false, inFlight := false, latest := blank, telemetry := buffers,
       posts := s.posts + [blank])
  }

  /** The end of the caller's own work: the restart guard, or the last lines of on_activate. */
  function FinishWork(s: State, ok: bool, buffers: Work): State
    requires s.caller.Using?
  {
    var why := s.caller.why;
    if why == Switching(true) then s.(caller := Starting(why))
    else if why == Activating && ok then InitBuffers(s, buffers).(caller := Starting(why))
    else s.(caller := Idle)
  }

  /** One pass through the predicate of wait(). */
  function CheckFlags(s: State): State
    requires |s.posts| > 0
  {
    if s.stop then s.(thread := Exiting)
    else if s.pending then
      s.(thread := Busy(s.latest, |s.posts| - 1, false), pending := false, inFlight := true,
         taken := s.taken + [|s.posts| - 1])
    else s.(thread := Blocked)
  }

  function Apply(s: State, m: Move): State
    requires Enabled(s, m) && |s.posts| > 0
  {
    match m
    case PostCommand(post) => s.(latest := post, posts := s.posts + [post], pending := true, caller := NotifyPost)
    case NotifyPosted => s.(thread := Notified(s.thread), caller := Idle)
    case Begin(why) => BeginStop(s, why)
    case NotifyStopping => s.(thread := Notified(s.thread), caller := Joining(s.caller.why))
    case Join => s.(thread := Absent, caller := Clearing(s.caller.why))
    case Clear => s.(stop := false, pending := false, inFlight := false, caller := Using(s.caller.why, false))
    case CallerOp => s.(caller := Using(s.caller.why, true))
    case CallerOpDone => s.(caller := Using(s.caller.why, false))
    case Finish(ok, buffers) => FinishWork(s, ok, buffers)
    case Start =>
      if Joinable(s) then s.(caller := Idle)
      else s.(stop := false, pending := true, inFlight := false, thread := Checking, caller := Idle,
              started := |s.posts|, taken := [], done := 0)
    case Wake => s.(thread := Checking)
    case Check => CheckFlags(s)
    case ThreadOp => s.(thread := Busy(s.thread.command, s.thread.n, true))
    case ThreadOpDone => s.(thread := Busy(s.thread.command, s.thread.n, false))
    case Publish(snapshot) =>
      s.(inFlight := false, thread := Checking, telemetry := snapshot, done := s.done + 1)
    case Exit => s.(inFlight := false, thread := Exited)
  }

  /** Every interleaving: a sequence of moves, each enabled where it is made. */
  predicate Runs(s: State, moves: seq<Move>)
    decreases |moves|, 0
  {
    if moves == [] then |s.posts| > 0
    else
      var m := |moves| - 1;
      Runs(s, moves[..m]) && |After(s, moves[..m]).posts| > 0 && Enabled(After(s, moves[..m]), moves[m])
  }

  function After(s: State, moves: seq<Move>): State
    requires Runs(s, moves)
    decreases |moves|, 1
  {
    if moves == [] then s else Apply(After(s, moves[..|moves| - 1]), moves[|moves| - 1])
  }

  // ---- the invariant ----

  predicate Stopping(c: Caller) { c.NotifyStop? || c.Joining? }

  /** Flags and program counters. */
  predicate Handshake(s: State) {
    // the caller owns the transport only without a thread
    && (s.caller.Clearing? || s.caller.Using? || s.caller.Starting? ==> s.thread.Absent?)
    && (s.caller.Starting? ==> s.caller.why == Switching(true) || s.caller.why == Activating)
    // a stop request stands exactly while the caller waits for the thread, and until it has cleaned up
    && (s.stop <==> Stopping(s.caller) || s.caller.Clearing?)
    && (Stopping(s.caller) ==> Joinable(s) && s.pending)
    && (s.thread.Exiting? || s.thread.Exited? ==> Stopping(s.caller))
    // a sleeping thread has nothing to do, or is about to be notified
    && (s.thread.Blocked? && (s.stop || s.pending) ==> s.caller.NotifyPost? || s.caller.NotifyStop?)
    && (s.inFlight <==> s.thread.Busy?)
  }

  predicate Increasing(t: seq<nat>) { forall i, k | 0 <= i < k < |t| :: t[i] < t[k] }

  /** Mailbox history of the running thread. */
  predicate History(s: State) {
    && s.posts != [] && s.latest == s.posts[|s.posts| - 1]
    && (s.thread.Busy? ==> s.thread.n + 1 <= |s.posts| && s.thread.command == s.posts[s.thread.n]
                           && s.taken != [] && s.taken[|s.taken| - 1] == s.thread.n)
    && (Joinable(s) ==>
          && 1 <= s.started <= |s.posts|
          && Increasing(s.taken)
          && (forall i | 0 <= i < |s.taken| :: s.started - 1 <= s.taken[i] < |s.posts|)
          && |s.taken| <= |s.posts| - s.started + 1
          && s.done + (if s.thread.Busy? then 1 else 0) == |s.taken|
          && (!s.stop ==>
                && (s.pending ==> |s.taken| <= |s.posts| - s.started)
                && (s.pending && s.taken != [] ==> s.taken[|s.taken| - 1] < |s.posts| - 1)
                && (!s.pending ==> s.taken != [] && s.taken[|s.taken| - 1] == |s.posts| - 1)))
  }

  predicate Inv(s: State) { Handshake(s) && History(s) }

  lemma InitialInv()
    ensures Inv(Initial())
  {
  }

  lemma HandshakeStep(s: State, m: Move)
    requires Inv(s) && Enabled(s, m)
    ensures Handshake(Apply(s, m))
  {
    hide History;
    assert |s.posts| > 0 by { SomePost(s); }
  }

  lemma SomePost(s: State)
    requires Inv(s)
    ensures |s.posts| > 0
  {
  }

  /** Looking at the flags. */
  lemma CheckHistory(s: State)
    requires Inv(s) && Enabled(s, Check)
    ensures History(Apply(s, Check))
  {
  }

  /** A new command, from write() or from the buffers. */
  lemma PostHistory(s: State, post: Post)
    requires Inv(s) && Enabled(s, PostCommand(post))
    ensures History(Apply(s, PostCommand(post)))
  {
    hide Handshake;
    assert forall i | 0 <= i < |s.posts| :: (s.posts + [post])[i] == s.posts[i];
  }

  lemma HistoryStep(s: State, m: Move)
    requires Inv(s) && Enabled(s, m)
    ensures History(Apply(s, m))
  {
    hide BlankPost;
    if m.Check? {
      CheckHistory(s);
    } else if m.PostCommand? {
      PostHistory(s, m.post);
    } else if m.Finish? {
      FinishHistory(s, m.ok, m.buffers);
    } else {
      hide CheckFlags, FinishWork;
    }
  }

  lemma FinishHistory(s: State, ok: bool, buffers: Work)
    requires Inv(s) && Enabled(s, Finish(ok, buffers))
    ensures History(Apply(s, Finish(ok, buffers)))
  {
    hide BlankPost;
  }

  lemma {:induction false} Invariant(s: State, moves: seq<Move>)
    requires Inv(s) && Runs(s, moves)
    ensures Inv(After(s, moves))
  {
    hide Inv, Apply, Enabled;
    if moves != [] {
      var m := |moves| - 1;
      Invariant(s, moves[..m]);
      var t := After(s, moves[..m]);
      InvStep(t, moves[m]);
    }
  }

  lemma InvStep(s: State, m: Move)
    requires Inv(s) && Enabled(s, m) && |s.posts| > 0
    ensures Inv(Apply(s, m))
  {
    HandshakeStep(s, m);
    HistoryStep(s, m);
  }

  // ---- exclusive transport ----

  /** In every interleaving the two threads are never both inside a transport operation. */
  lemma ExclusiveTransport(moves: seq<Move>)
    requires Runs(Initial(), moves)
    ensures var s := After(Initial(), moves);
            && (s.caller.Using? ==> s.thread.Absent?)
            && !(s.caller.Using? && s.caller.inOp && s.thread.Busy? && s.thread.inOp)
            && (s.inFlight <==> s.thread.Busy?)
  {
    InitialInv();
    Invariant(Initial(), moves);
  }

  lemma {:induction false} PrefixRuns(s: State, moves: seq<Move>)
    requires moves != [] && Runs(s, moves)
    ensures var m := |moves| - 1;
            && Runs(s, moves[..m]) && Enabled(After(s, moves[..m]), moves[m])
            && |After(s, moves[..m]).posts| > 0
            && After(s, moves) == Apply(After(s, moves[..m]), moves[m])
  {
  }

  /** Once stop is set, no cycle begins before the next start. */
  lemma {:induction false} NoCycleAfterStop(s: State, moves: seq<Move>)
    requires Inv(s) && s.stop && Runs(s, moves) && Start !in moves
    ensures After(s, moves).taken == s.taken
    ensures After(s, moves).stop || !Joinable(After(s, moves))
  {
    hide Inv, Apply;
    if moves != [] {
      var m := |moves| - 1;
      PrefixRuns(s, moves);
      NoCycleAfterStop(s, moves[..m]);
      Invariant(s, moves[..m]);
      StoppedStep(After(s, moves[..m]), moves[m]);
    }
  }

  lemma StoppedStep(s: State, m: Move)
    requires Inv(s) && Enabled(s, m) && m != Start && |s.posts| > 0 && (s.stop || !Joinable(s))
    ensures var t := Apply(s, m); t.taken == s.taken && (t.stop || !Joinable(t))
  {
    hide History;
  }

  // ---- every call that stops or starts the thread ----

  /** The purpose the caller is working on, if any. */
  predicate Pursues(c: Caller, why: Purpose) {
    match c
    case Idle => false
    case NotifyPost => false
    case NotifyStop(w) => w == why
    case Joining(w) => w == why
    case Clearing(w) => w == why
    case Using(w, _) => w == why
    case Starting(w) => w == why
  }

  lemma {:induction false} SwitchBegins(s: State, moves: seq<Move>, ran: bool)
    requires moves != [] && Runs(s, moves) && moves[0] == Begin(Switching(ran))
    ensures Enabled(s, moves[0]) && ran == Joinable(s)
  {
    hide Apply;
    PrefixRuns(s, moves);
    var m := |moves| - 1;
    if m == 0 {
      assert moves[..0] == [];
    } else {
      SwitchBegins(s, moves[..m], ran);
    }
  }

  /** Such a call ends with the thread running exactly if it is a switch that found it running, or an
      activation that succeeded; a successful activation first puts the blank command in the mailbox and the
      given buffers in the snapshot. */
  lemma CallStep(s: State, m: Move, why: Purpose)
    requires Inv(s) && Enabled(s, m) && |s.posts| > 0 && Pursues(s.caller, why)
    ensures var t := Apply(s, m);
            || Pursues(t.caller, why)
            || (t.caller.Idle? && if m == Start then Joinable(t) && (why == Switching(true) || why.Activating?)
                                  else m.Finish? && !Joinable(t) && why != Switching(true) &&
                                       (why.Activating? ==> !m.ok))
    ensures m.Finish? && why != Switching(true) && (why.Activating? ==> !m.ok) ==> Apply(s, m) == s.(caller := Idle)
    ensures m.Finish? && why.Activating? && m.ok ==>
              var t := Apply(s, m);
              && t.caller == Starting(why) && t.telemetry == m.buffers && |t.latest.orders| == |m.buffers.slots|
              && forall i | 0 <= i < |t.latest.orders| ::
                   t.latest.orders[i].level.UNDEFINED? && t.latest.orders[i].seqNo == Numeric.ZERO
  {
    hide History;
  }

  /** From the first lock region of a call to its return, in every interleaving. */
  lemma {:induction false} CallEnds(s: State, moves: seq<Move>, why: Purpose)
    requires Inv(s) && moves != [] && Runs(s, moves) && moves[0] == Begin(why)
    requires forall n | 0 < n < |moves| && Runs(s, moves[..n]) :: !After(s, moves[..n]).caller.Idle?
    ensures var t := After(s, moves);
            var last := moves[|moves| - 1];
            || Pursues(t.caller, why)
            || (t.caller.Idle? && if last == Start then Joinable(t) && (why == Switching(true) || why.Activating?)
                                  else last.Finish? && !Joinable(t) && why != Switching(true) &&
                                       (why.Activating? ==> !last.ok))
  {
    hide Inv, Apply, Pursues, Enabled;
    var m := |moves| - 1;
    PrefixRuns(s, moves);
    if m == 0 {
      assert moves[..0] == [];
      BeginsCall(s, why);
    } else {
      forall n | 0 < n < m && Runs(s, moves[..m][..n]) ensures !After(s, moves[..m][..n]).caller.Idle? {
        assert moves[..m][..n] == moves[..n];
      }
      CallEnds(s, moves[..m], why);
      Invariant(s, moves[..m]);
      var u := After(s, moves[..m]);
      assert !u.caller.Idle?;
      CallStep(u, moves[m], why);
    }
  }

  lemma BeginsCall(s: State, why: Purpose)
    requires Inv(s) && Enabled(s, Begin(why)) && |s.posts| > 0
    ensures Pursues(Apply(s, Begin(why)).caller, why)
  {
    hide History;
  }

  /** perform_command_mode_switch leaves the thread running exactly if it ran before: when the caller
      is idle for the first time after it, on every return path and in every interleaving. */
  lemma SwitchRestores(s: State, moves: seq<Move>, ran: bool)
    requires Inv(s) && moves != [] && Runs(s, moves) && moves[0] == Begin(Switching(ran))
    requires forall n | 0 < n < |moves| && Runs(s, moves[..n]) :: !After(s, moves[..n]).caller.Idle?
    ensures var t := After(s, moves);
            || Pursues(t.caller, Switching(ran))
            || (t.caller.Idle? && Joinable(t) == ran == Joinable(s))
  {
    hide Inv, Apply, Pursues, Enabled;
    CallEnds(s, moves, Switching(ran));
    SwitchBegins(s, moves, ran);
  }

  // ---- the mailbox ----

  /** Between a start and the next stop: commands are taken in order and at most once, a cycle runs
      the command it took, there are at most as many cycles as posts plus the replay at the start, every
      cycle but the running one has published its snapshot, and a post is passed over only for a later
      one. */
  lemma MailboxProtocol(moves: seq<Move>)
    requires Runs(Initial(), moves)
    ensures var s := After(Initial(), moves);
            Joinable(s) ==>
              && Increasing(s.taken)
              && |s.taken| <= (|s.posts| - s.started) + 1
              && s.done == |s.taken| - (if s.thread.Busy? then 1 else 0)
              && (s.thread.Busy? ==> s.thread.n < |s.posts| && s.thread.command == s.posts[s.thread.n])
              && (!s.stop ==> forall p | s.started <= p < |s.posts| :: p in s.taken || p < |s.posts| - 1 || s.pending)
  {
    hide Apply, Enabled, Handshake;
    InitialInv();
    Invariant(Initial(), moves);
  }

  /** A thread that looks at its flags takes the latest post. */
  lemma TakesLatest(s: State)
    requires Inv(s) && Enabled(s, Check) && !s.stop && s.pending
    ensures var t := Apply(s, Check);
            && t.thread == Busy(s.latest, |s.posts| - 1, false)
            && !t.pending && |s.posts| - 1 !in s.taken
  {
  }

  /** A restarted thread begins with the last posted command, even if it was taken before. */
  lemma RestartReplays(s: State)
    requires Inv(s) && Enabled(s, Start)
    ensures var t := Apply(s, Start);
            Enabled(t, Check) && Apply(t, Check).thread == Busy(s.latest, |s.posts| - 1, false)
  {
  }

  /** No lost wakeup: if there is something to do, then the thread can do it without a spurious
      wakeup, or the caller is about to notify it. */
  lemma NoLostWakeup(moves: seq<Move>)
    requires Runs(Initial(), moves)
    ensures var s := After(Initial(), moves);
            Joinable(s) && !s.thread.Exited? && (s.stop || s.pending) ==>
              || Enabled(s, Check) || Enabled(s, ThreadOp) || Enabled(s, ThreadOpDone) || Enabled(s, Exit)
              || (s.thread.Blocked? && (Enabled(s, NotifyPosted) || Enabled(s, NotifyStopping)))
    ensures var s := After(Initial(), moves);
            s.caller.Joining? ==> Enabled(s, Join) || (Joinable(s) && !s.thread.Blocked?)
  {
    hide Apply, History;
    InitialInv();
    Invariant(Initial(), moves);
  }

  /** How many lock regions a thread that must stop is away from its end. */
  function Distance(t: Thread): nat {
    match t
    case Absent => 0
    case Exited => 0
    case Exiting => 1
    case Checking => 2
    case Blocked => 3
    case Busy(_, _, _) => 3
  }

  /** While the caller waits for the thread, every move of the thread but a transport operation brings
      it nearer to its end, at most three lock regions away, and then the join succeeds. */
  lemma JoinSucceeds(s: State, m: Move)
    requires Inv(s) && s.caller.Joining? && Enabled(s, m) && |s.posts| > 0
    ensures m.ThreadOp? || m.ThreadOpDone? || m.Join? || Distance(Apply(s, m).thread) < Distance(s.thread)
    ensures Distance(s.thread) == 0 <==> Enabled(s, Join)
  {
    hide History;
  }

  // ---- the lock regions as code ----

  /** The fields guarded by async_io_mutex_. The program counters and the history are ghost. */
  class AsyncIo {
    var joinable: bool  // async_io_thread_.joinable()
    var stop: bool
    var pending: bool
    var inFlight: bool
    var latest: Post
    var telemetry: Work
    ghost var caller: Caller
    ghost var thread: Thread
    ghost var posts: seq<Post>
    ghost var started: nat
    ghost var taken: seq<nat>
    ghost var done: nat

    ghost function View(): State
      reads this
    {
      State(caller, thread, stop, pending, inFlight, latest, telemetry, posts, started, taken, done)
    }

    ghost predicate Valid()
      reads this
    {
      Inv(View()) && joinable == Joinable(View())
    }

    constructor ()
      ensures Valid() && View() == Initial()
    {
      joinable, stop, pending, inFlight := false, false, false, false;
      latest, telemetry := NO_POST, NO_TELEMETRY;
      caller, thread, posts, started, taken, done := Idle, Absent, [NO_POST], 1, [], 0;
    }

    /** write() in asynchronous mode. */
    method Write(post: Post)
      requires Valid() && Enabled(View(), PostCommand(post))
      modifies this
      ensures Valid() && View() == Apply(old(View()), PostCommand(post))
    {
      hide Inv, BlankPost;
      SomePost(View());
      InvStep(View(), PostCommand(post));
      latest := post;
      pending := true;
      posts, caller := posts + [post], NotifyPost;
    }

    /** read() in asynchronous mode: the last published snapshot, and whether a cycle is running. */
    method Read() returns (snapshot: Work, busy: bool)
      requires Valid()
      ensures snapshot == telemetry
      ensures busy <==> thread.Busy?
    {
      snapshot := telemetry;
      busy := inFlight;
    }

    /** async_io_init_buffers, at the end of a successful activation. */
    method InitBuffers(buffers: Work)
      requires Valid() && Enabled(View(), Finish(true, buffers)) && caller.why == Activating
      modifies this
      ensures Valid() && View() == Apply(old(View()), Finish(true, buffers))
      ensures latest == BlankPost(|buffers.slots|) && telemetry == buffers
    {
      hide Inv, BlankPost;
      SomePost(View());
      InvStep(View(), Finish(true, buffers));
      latest := BlankPost(|buffers.slots|);
      telemetry := buffers;
      stop, pending, inFlight := false, false, false;
      caller, posts := Starting(caller.why), posts + [latest];
    }

    /** The first lock region of async_io_stop_and_join; false when there is no thread to wait for. */
    method RequestStop(ghost why: Purpose) returns (wait: bool)
      requires Valid() && Enabled(View(), Begin(why)) && why != Activating && why != Switching(false)
      modifies this
      ensures Valid() && View() == Apply(old(View()), Begin(why))
      ensures wait == old(joinable)
    {
      hide Inv, BlankPost;
      SomePost(View());
      InvStep(View(), Begin(why));
      if !joinable {
        stop, pending, inFlight := false, false, false;
        caller := Using(why, false);
        return false;
      }
      stop, pending := true, true;
      caller := NotifyStop(why);
      wait := true;
    }

    /** async_io_thread_.join() returns. */
    method Joined()
      requires Valid() && Enabled(View(), Move.Join)
      modifies this
      ensures Valid() && View() == Apply(old(View()), Move.Join) && !joinable
    {
      hide Inv, BlankPost;
      SomePost(View());
      InvStep(View(), Move.Join);
      joinable := false;
      caller, thread := Clearing(caller.why), Absent;
    }

    /** The last lock region of async_io_stop_and_join. */
    method ClearFlags()
      requires Valid() && Enabled(View(), Clear)
      modifies this
      ensures Valid() && View() == Apply(old(View()), Clear)
    {
      hide Inv, BlankPost;
      SomePost(View());
      InvStep(View(), Clear);
      stop, pending, inFlight := false, false, false;
      caller := Using(caller.why, false);
    }

    /** The part of async_io_start that creates the thread. */
    method Spawn()
      requires Enabled(View(), Start) && !joinable && !Joinable(View()) && posts != []
      modifies this
      ensures View() == Apply(old(View()), Start) && joinable
    {
      stop, pending, inFlight := false, true, false;
      joinable := true;
      thread, caller, started, taken, done := Checking, Idle, |posts|, [], 0;
    }

    /** async_io_start. */
    method StartThread()
      requires Enabled(View(), Start) && joinable == Joinable(View()) && posts != []
      modifies this
      ensures View() == Apply(old(View()), Start) && joinable && joinable == Joinable(View())
      ensures old(Valid()) ==> Valid()
    {
      hide Inv;
      ghost var before := View();
      if Inv(before) {
        InvStep(before, Start);
      }
      if joinable {
        caller := Idle;
        return;
      }
      Spawn();
    }

    /** The lock region at the top of the thread's loop; None when it goes to sleep or leaves. */
    method WaitForCommand() returns (command: Numeric.Option<Post>)
      requires Valid() && Enabled(View(), Check)
      modifies this
      ensures Valid() && View() == Apply(old(View()), Check)
      ensures command == if old(!stop && pending) then Numeric.Some(old(latest)) else Numeric.None
    {
      hide Inv, BlankPost;
      SomePost(View());
      InvStep(View(), Check);
      if stop {
        thread := Exiting;
        return Numeric.None;
      }
      if !pending {
        thread := Blocked;
        return Numeric.None;
      }
      command := Numeric.Some(latest);
      pending := false;
      inFlight := true;
      thread, taken := Busy(latest, |posts| - 1, false), taken + [|posts| - 1];
    }

    /** publish_cycle. */
    method PublishSnapshot(snapshot: Work)
      requires Valid() && Enabled(View(), Publish(snapshot))
      modifies this
      ensures Valid() && View() == Apply(old(View()), Publish(snapshot)) && !inFlight && telemetry == snapshot
    {
      hide Inv, BlankPost;
      SomePost(View());
      InvStep(View(), Publish(snapshot));
      inFlight := false;
      telemetry := snapshot;
      thread, done := Checking, done + 1;
    }
  }
}
