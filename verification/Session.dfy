/** The mailbox and the cycle together: what the snapshots of a running thread show, in every
    interleaving with the caller. */
module Session {
  import opened Numeric
  import opened Transport
  import opened Cycle
  import opened Worker
  import opened Refinement
  import Frozen
  import Lockstep
  import M = Mailbox
  import Start

  /** What the thread works on: its own state at the start, and then the snapshot it published last. */
  function Current(s: M.State, w: Work): Work { if s.done == 0 then w else s.telemetry }

  /** Every snapshot published is one cycle from the one before, under the command taken for it. */
  ghost predicate Honest(c: Context, w: Work, s: M.State, moves: seq<M.Move>)
    requires M.Runs(s, moves)
  {
    moves != [] ==>
      && var m := |moves| - 1;
         var t := M.After(s, moves[..m]);
         && Honest(c, w, s, moves[..m])
         && (moves[m].Publish? && t.thread.Busy? ==>
               moves[m].snapshot == CycleSpec(c, Current(t, w), t.thread.command))
  }

  /** The commands of the cycles published since the start, in the order they were taken. */
  function Completed(s: M.State): seq<Post>
    requires M.Inv(s) && M.Joinable(s)
  {
    seq(s.done, k requires 0 <= k < s.done => s.posts[s.taken[k]])
  }

  /** The thread has just been started. */
  predicate Begun(s: M.State) { M.Inv(s) && M.Joinable(s) && s.done == 0 && s.taken == [] }

  lemma StartBegins(s: M.State)
    requires M.Inv(s) && M.Enabled(s, M.Start) && |s.posts| > 0
    ensures Begun(M.Apply(s, M.Start))
  {
    M.InvStep(s, M.Start);
  }

  ghost predicate UpToDate(c: Context, w: Work, s: M.State)
    requires M.Inv(s)
  {
    M.Joinable(s) ==> Current(s, w) == WorkerCycles(c, w, Completed(s))
  }

  lemma {:induction false} HistoryGrows(s: M.State, m: M.Move)
    requires M.Inv(s) && M.Enabled(s, m) && |s.posts| > 0 && m != M.Start && !m.Publish? && M.Joinable(s)
    ensures var t := M.Apply(s, m);
            M.Joinable(t) ==>
              && t.done == s.done && t.telemetry == s.telemetry
              && |s.posts| <= |t.posts| && t.posts[..|s.posts|] == s.posts
              && |s.taken| <= |t.taken| && t.taken[..|s.taken|] == s.taken
  {
    hide M.History, BlankPost;
  }

  lemma SameCompleted(s: M.State, t: M.State)
    requires M.Inv(s) && M.Inv(t) && M.Joinable(s) && M.Joinable(t) && t.done == s.done
    requires |s.posts| <= |t.posts| && t.posts[..|s.posts|] == s.posts
    requires |s.taken| <= |t.taken| && t.taken[..|s.taken|] == s.taken
    ensures Completed(t) == Completed(s)
  {
    forall k | 0 <= k < s.done ensures t.posts[t.taken[k]] == s.posts[s.taken[k]] {
      assert t.taken[k] == t.taken[..|s.taken|][k];
      assert t.posts[s.taken[k]] == t.posts[..|s.posts|][s.taken[k]];
    }
  }

  lemma PublishCompletes(s: M.State, snapshot: Work)
    requires M.Inv(s) && M.Enabled(s, M.Publish(snapshot)) && |s.posts| > 0
    requires M.Inv(M.Apply(s, M.Publish(snapshot)))
    ensures Completed(M.Apply(s, M.Publish(snapshot))) == Completed(s) + [s.thread.command]
  {
  }

  lemma PublishedNext(s: M.State, snapshot: Work)
    requires M.Enabled(s, M.Publish(snapshot)) && |s.posts| > 0
    ensures var t := M.Apply(s, M.Publish(snapshot)); t.done == s.done + 1 && t.telemetry == snapshot
  {
  }

  lemma StaysAbsent(s: M.State, m: M.Move)
    requires M.Inv(s) && M.Enabled(s, m) && |s.posts| > 0 && m != M.Start && !M.Joinable(s)
    ensures !M.Joinable(M.Apply(s, m))
  {
    hide M.History, BlankPost;
  }

  lemma PublishBusy(s: M.State, m: M.Move)
    requires M.Enabled(s, m)
    ensures m.Publish? ==> s.thread.Busy?
  {
  }

  lemma StepUpToDate(c: Context, w: Work, s: M.State, m: M.Move)
    requires M.Inv(s) && M.Enabled(s, m) && |s.posts| > 0 && m != M.Start
    requires UpToDate(c, w, s)
    requires m.Publish? ==> m.snapshot == CycleSpec(c, Current(s, w), s.thread.command)
    ensures M.Inv(M.Apply(s, m)) && UpToDate(c, w, M.Apply(s, m))
  {
    hide M.Inv, M.Apply, M.Enabled, CycleSpec, Completed;
    M.InvStep(s, m);
    var t := M.Apply(s, m);
    if !M.Joinable(s) {
      StaysAbsent(s, m);
    } else if m.Publish? {
      PublishBusy(s, m);
      PublishCompletes(s, m.snapshot);
      PublishedNext(s, m.snapshot);
      var before := Completed(s);
      assert (before + [s.thread.command])[..|before|] == before;
    } else if M.Joinable(t) {
      HistoryGrows(s, m);
      SameCompleted(s, t);
    }
  }

  /** While the thread runs, in every interleaving of posts, notifications, sleeps and stops, what it has
      published last is the result of one cycle for each command it took, in the order of the posts. */
  lemma {:induction false} SnapshotMeaning(c: Context, w: Work, s: M.State, moves: seq<M.Move>)
    requires Begun(s) && M.Runs(s, moves) && M.Start !in moves && Honest(c, w, s, moves)
    ensures M.Inv(M.After(s, moves)) && UpToDate(c, w, M.After(s, moves))
  {
    hide M.Inv, M.Apply, M.Enabled, CycleSpec;
    if moves == [] {
      assert Completed(s) == [];
    } else {
      var m := |moves| - 1;
      M.PrefixRuns(s, moves);
      SnapshotMeaning(c, w, s, moves[..m]);
      var t := M.After(s, moves[..m]);
      PublishBusy(t, moves[m]);
      StepUpToDate(c, w, t, moves[m]);
    }
  }

  /** So, without TIMEOUT and NO_DEVICE and from equal states, the running thread and a controller manager
      that calls read(), has its controllers write the commands taken, and calls write() stay in equal
      states, whatever the interleaving and whichever posts are passed over. */
  lemma SessionRefines(c: Context, h: Hw, w: Work, s: M.State, moves: seq<M.Move>)
    requires Begun(s) && M.Runs(s, moves) && M.Start !in moves && Honest(c, w, s, moves)
    requires NoFailFast(c.env) && Writable(c, h) && Frozen.AllSettled(h) && Related(h, w)
    ensures var t := M.After(s, moves);
            M.Inv(t) && (M.Joinable(t) ==> Related(SyncCycles(c, h, Completed(t)), Current(t, w)))
  {
    hide M.Inv, Related, SyncCycles, WorkerCycles, Completed;
    SnapshotMeaning(c, w, s, moves);
    var t := M.After(s, moves);
    if M.Joinable(t) {
      RunRefines(c, h, w, Completed(t));
    }
  }

  // ---- from a fresh start ----

  lemma {:induction false} CyclesFromFirst(c: Context, w: Work, post: Post, posts: seq<Post>)
    ensures WorkerCycles(c, w, [post] + posts) == WorkerCycles(c, CycleSpec(c, w, post), posts)
  {
    hide CycleSpec;
    var all := [post] + posts;
    if posts == [] {
      assert all[..0] == [];
      assert WorkerCycles(c, w, all[..0]) == w;
    } else {
      var m := |posts|;
      assert all[..m] == [post] + posts[..m - 1] && all[m] == posts[m - 1];
      CyclesFromFirst(c, w, post, posts[..m - 1]);
    }
  }

  /** After an activation the same holds of every cycle, the first included, if all joints are held at zero
      and none is masked in it, and the blank command is taken before it is overtaken by a write(). */
  lemma SessionFromStart(c: Context, h: Hw, period: Num, s: M.State, moves: seq<M.Move>)
    requires Begun(s) && M.Runs(s, moves) && M.Start !in moves && Honest(c, StartedWork(h), s, moves)
    requires NoFailFast(c.env) && Writable(c, h) && Start.AllFresh(h) && Start.EffortRatesOk(h) && Start.AllAtZero(h)
    requires forall i | 0 <= i < |h.joints| :: !HasFault(c.safety, ReadSpec(c, h).joints[i].core.errs)
    ensures var t := M.After(s, moves);
            && M.Inv(t)
            && (M.Joinable(t) && t.done > 0 && Completed(t)[0] == BlankPost(|h.joints|) ==>
                  Related(SyncCycles(c, Lockstep.FirstSyncCycle(c, h, period), Completed(t)[1..]), t.telemetry))
  {
    hide M.Inv, Related, SyncCycles, WorkerCycles, CycleSpec, BlankPost, StartedWork, Start.AllFresh, HasFault;
    hide Lockstep.FirstSyncCycle, ReadSpec;
    var w := StartedWork(h);
    SnapshotMeaning(c, w, s, moves);
    var t := M.After(s, moves);
    if M.Joinable(t) && t.done > 0 && Completed(t)[0] == BlankPost(|h.joints|) {
      var all := Completed(t);
      assert all == [all[0]] + all[1..];
      CyclesFromFirst(c, w, all[0], all[1..]);
      Start.RefinesFromStart(c, h, period, all[1..]);
    }
  }
}
