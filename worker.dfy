/** What a download worker does with each piece it takes from the shared
    queue (p2p/p2p.go:69-92; also main.go:238-261): put it back when the peer
    lacks it, download it, check it, and either publish it or put it back. The
    queue and the results are sequences; one call is one pass of the loop. */
module Worker {
  import opened Base
  import opened PeerClient
  import opened Download
  import Bitfield

  /** A downloaded piece that passed its integrity check. */
  datatype PieceResult = PieceResult(index: nat, buf: seq<byte>)

  /** The work queue and the results channel shared by all workers. */
  class Pool {
    var queue: seq<PieceWork>
    var results: seq<PieceResult>
  }

  /** How one pass of the worker loop ended. */
  datatype ItemOutcome =
    | Unavailable     // the peer's bitfield lacks the piece: put back, continue
    | DownloadFailed  // the attempt failed: put back, the worker exits
    | Corrupt         // the integrity check failed: put back, continue
    | Completed       // `have` sent and the result published, continue

  predicate Continues(o: ItemOutcome) { !o.DownloadFailed? }

  /** `workQueue <- pw` for the item just taken from the front. */
  function Requeue(q: seq<PieceWork>): (r: seq<PieceWork>)
    requires q != []
    ensures |r| == |q| && multiset(r) == multiset(q)
  {
    assert q == [q[0]] + q[1..];
    q[1..] + [q[0]]
  }

  function Indices(q: seq<PieceWork>): multiset<nat>
  {
    if q == [] then multiset{} else multiset{q[0].index} + Indices(q[1..])
  }

  function ResultIndices(rs: seq<PieceResult>): multiset<nat>
  {
    if rs == [] then multiset{} else multiset{rs[0].index} + ResultIndices(rs[1..])
  }

  lemma {:induction false} IndicesAppend(a: seq<PieceWork>, b: seq<PieceWork>)
    ensures Indices(a + b) == Indices(a) + Indices(b)
  {
    if a == [] {
      assert a + b == b;
    } else {
      assert (a + b)[0] == a[0] && (a + b)[1..] == a[1..] + b;
      IndicesAppend(a[1..], b);
    }
  }

  lemma {:induction false} ResultIndicesAppend(a: seq<PieceResult>, b: seq<PieceResult>)
    ensures ResultIndices(a + b) == ResultIndices(a) + ResultIndices(b)
  {
    if a == [] {
      assert a + b == b;
    } else {
      assert (a + b)[0] == a[0] && (a + b)[1..] == a[1..] + b;
      ResultIndicesAppend(a[1..], b);
    }
  }

  /** The pieces not yet published plus the pieces published: one pass of the
      loop moves a piece between the two and never creates or drops one. */
  function Unresolved(pool: Pool): multiset<nat>
    reads pool
  {
    Indices(pool.queue) + ResultIndices(pool.results)
  }

  /** How the result `a` of the attempt at `pw` decides the end of a pass for
      a piece the peer holds: a failed attempt makes the worker exit, and a
      downloaded piece is published exactly when it passes the check. */
  predicate Decides(a: Result<seq<byte>, DownloadError>, pw: PieceWork,
                    intact: (PieceWork, seq<byte>) -> bool, outcome: ItemOutcome)
  {
    && (outcome.DownloadFailed? <==> a.Failure?)
    && (outcome.Completed? <==> a.Success? && intact(pw, a.value))
    && (outcome.Corrupt? <==> a.Success? && !intact(pw, a.value))
  }

  /** What a pass reads and changes of the connection, as a value. */
  datatype Link = Link(inbox: seq<Delivery>, choked: bool, bitfield: seq<bv8>,
                       writes: seq<bool>, sent: seq<Outgoing>)

  function Linked(c: Client): Link
    reads c, c.bitfield
  {
    Link(c.inbox, c.choked, c.bitfield[..], c.writes, c.sent)
  }

  /** The session an attempt at `pw` starts from over a connection in state
      `l`, as `Begin` builds it from the connection itself. */
  function Opening(l: Link, pw: PieceWork): Session
  {
    Session(Snapshot(l.choked, l.bitfield, Zeros(pw.length), 0, 0), 0, l.inbox, l.writes, l.sent)
  }

  /** What an attempt gives back: its result and the session it ended in. */
  type Run = (Result<seq<byte>, DownloadError>, Session)

  /** The attempt at `pw` over a connection in state `l`. */
  function Attempted(l: Link, pw: PieceWork): Run
  {
    Attempt(Opening(l, pw), pw.index, pw.length)
  }

  /** Whether a pass whose attempt ended in session `f` writes a `have`: only
      after a completed piece, and only when the next scripted write succeeds. */
  predicate HaveWritten(f: Session, outcome: ItemOutcome)
  {
    outcome.Completed? && f.writes != [] && f.writes[0]
  }

  /** The connection `l` after a pass that downloaded piece `index` and whose
      attempt ended in session `f`: what the attempt left, and then, for a
      completed piece only, one `have` that uses up the next scripted write and
      is recorded when it succeeds (its error is ignored, as in Go). */
  predicate Announced(f: Session, index: nat, outcome: ItemOutcome, haveSent: bool, l: Link)
  {
    && l.inbox == f.inbox && l.choked == f.st.choked && l.bitfield == f.st.bitfield
    && haveSent == HaveWritten(f, outcome)
    && l.writes == (if outcome.Completed? && f.writes != [] then f.writes[1..] else f.writes)
    && l.sent == f.sent + if haveSent then [Have(index)] else []
  }

  /** The part of one pass that talks to the peer, for a piece it holds:
      download, check, and on success announce the piece with `have`. */
  method Fetch(c: Client, pw: PieceWork, intact: (PieceWork, seq<byte>) -> bool)
    returns (outcome: ItemOutcome, buf: seq<byte>, haveSent: bool)
    modifies c, c.bitfield
    ensures !outcome.Unavailable?
    ensures var a := Attempted(old(Linked(c)), pw).0;
      Decides(a, pw, intact, outcome) && (a.Success? ==> buf == a.value)
    ensures outcome.Completed? ==> |buf| == pw.length && intact(pw, buf)
    ensures outcome.Corrupt? ==> |buf| == pw.length && !intact(pw, buf)
    ensures haveSent ==> outcome.Completed? && c.sent != [] && c.sent[|c.sent| - 1] == Have(pw.index)
    ensures var f := Attempted(old(Linked(c)), pw).1;
      Announced(f, pw.index, outcome, haveSent, Linked(c))
    ensures c.bitfield == old(c.bitfield) && PiecesGained(old(c.bitfield[..]), c.bitfield[..])
    ensures c.chokedRequests == old(c.chokedRequests)
  {
    assert Begin(c, pw) == Opening(Linked(c), pw);
    haveSent := false;
    var r, _ := AttemptDownloadPiece(c, pw);
    if r.Failure? {
      outcome, buf := DownloadFailed, [];
    } else if !intact(pw, r.value) {
      outcome, buf := Corrupt, r.value;
    } else {
      haveSent := c.SendHave(pw.index);
      outcome, buf := Completed, r.value;
    }
  }

  /** How a pass at a piece `pw` the peer holds ends, from results `r`, when
      its attempt went as `run`: `Decides` gives the outcome, a downloaded
      buffer has the piece's length, a completed pass appends exactly the
      attempt's buffer to the results and every other leaves them, and the
      connection `l'` is as `Announced` says. */
  predicate Settled(pw: PieceWork, run: Run, r: seq<PieceResult>, intact: (PieceWork, seq<byte>) -> bool,
                    outcome: ItemOutcome, l': Link, r': seq<PieceResult>)
  {
    var a, f := run.0, run.1;
    && Decides(a, pw, intact, outcome)
    && (a.Success? ==> |a.value| == pw.length)
    && r' == r + (if outcome.Completed? then [PieceResult(pw.index, a.value)] else [])
    && Announced(f, pw.index, outcome, HaveWritten(f, outcome), l')
  }

  /** What the worker loop has in hand between two passes: the queue, the
      connection and the results published so far. */
  datatype Stage = Stage(queue: seq<PieceWork>, link: Link, results: seq<PieceResult>)

  function Staged(pool: Pool, c: Client): Stage
    reads pool, c, c.bitfield
  {
    Stage(pool.queue, Linked(c), pool.results)
  }

  /** The part of a pass that does not depend on the attempt: from stage `s`
      to stage `s'` with outcome `o`, it took the front item, found it
      unavailable exactly when the peer's bitfield lacks it and then changed
      nothing but the queue, and it `Advance`d the queue by the outcome. */
  predicate Moves(s: Stage, o: ItemOutcome, s': Stage)
  {
    && s.queue != [] && s'.queue == Advance(s.queue, o)
    && (o.Unavailable? <==> !Bitfield.HasPieceBounded(s.link.bitfield, s.queue[0].index))
    && (o.Unavailable? ==> s'.link == s.link && s'.results == s.results)
  }

  /** What one pass did beyond moving the queue: the bitfield lost no piece,
      and a pass at a piece the peer holds made the attempt `run` from the
      connection it found and is `Settled` by it. */
  ghost predicate Worked(intact: (PieceWork, seq<byte>) -> bool, s: Stage, o: ItemOutcome, run: Run, s': Stage)
  {
    && PiecesGained(s.link.bitfield, s'.link.bitfield)
    && (!o.Unavailable? ==>
          && s.queue != [] && run == Attempted(s.link, s.queue[0])
          && Settled(s.queue[0], run, s.results, intact, o, s'.link, s'.results))
  }

  /** One pass of the worker loop: it `Moves` and it `Worked`. */
  ghost predicate Pass(intact: (PieceWork, seq<byte>) -> bool, s: Stage, o: ItemOutcome, run: Run, s': Stage)
  {
    Moves(s, o, s') && Worked(intact, s, o, run, s')
  }

  /** One pass of `for pw := range workQueue` in `startDownloadWorker`.
      `intact` stands for `checkIntegrity` succeeding on the downloaded bytes. */
  method WorkerStep(pool: Pool, c: Client, intact: (PieceWork, seq<byte>) -> bool)
    returns (outcome: ItemOutcome, haveSent: bool)
    requires pool.queue != []
    modifies pool, c, c.bitfield
    ensures outcome.Unavailable? <==> !Bitfield.HasPieceBounded(old(c.bitfield[..]), old(pool.queue[0].index))
    ensures outcome.Unavailable? ==> unchanged(c) && unchanged(c.bitfield)
    ensures !outcome.Completed? ==>
              pool.queue == Requeue(old(pool.queue)) && pool.results == old(pool.results) && !haveSent
    ensures outcome.Completed? ==>
              pool.queue == old(pool.queue[1..]) && |pool.results| == |old(pool.results)| + 1
              && pool.results[..|old(pool.results)|] == old(pool.results)
    ensures outcome.Completed? ==>
              var res := pool.results[|old(pool.results)|];
              res.index == old(pool.queue[0].index) && |res.buf| == old(pool.queue[0].length)
              && intact(old(pool.queue[0]), res.buf)
    ensures Pass(intact, old(Staged(pool, c)), outcome,
                 Attempted(old(Linked(c)), old(pool.queue[0])),
                 Staged(pool, c))
    ensures haveSent == (!outcome.Unavailable? &&
              HaveWritten(Attempted(old(Linked(c)), old(pool.queue[0])).1, outcome))
    ensures haveSent ==> c.sent != [] && c.sent[|c.sent| - 1] == Have(old(pool.queue[0].index))
    ensures old(pool.results) <= pool.results
    ensures |pool.results| == |old(pool.results)| + if outcome.Completed? then 1 else 0
    ensures Unresolved(pool) == old(Unresolved(pool))
    ensures c.bitfield == old(c.bitfield) && PiecesGained(old(c.bitfield[..]), c.bitfield[..])
    ensures c.chokedRequests == old(c.chokedRequests)
  {
    var pw := pool.queue[0];
    haveSent := false;
    if !Bitfield.HasPieceBounded(c.bitfield[..], pw.index) {
      outcome := Unavailable;
    } else {
      var buf;
      outcome, buf, haveSent := Fetch(c, pw, intact);
      if outcome.Completed? {
        PublishConserves(pool.queue, pool.results, PieceResult(pw.index, buf));
        pool.queue, pool.results := pool.queue[1..], pool.results + [PieceResult(pw.index, buf)];
      }
    }
    if !outcome.Completed? {
      RequeueConserves(pool.queue);
      pool.queue := Requeue(pool.queue);
    }
  }

  /** Putting an item back keeps the queue's pieces. */
  lemma {:induction false} RequeueConserves(q: seq<PieceWork>)
    requires q != []
    ensures Indices(Requeue(q)) == Indices(q)
  {
    assert [q[0]][1..] == [];
    IndicesAppend(q[1..], [q[0]]);
  }

  /** Publishing the front item moves its piece from the queue to the results. */
  lemma {:induction false} PublishConserves(q: seq<PieceWork>, rs: seq<PieceResult>, res: PieceResult)
    requires q != [] && res.index == q[0].index
    ensures Indices(q[1..]) + ResultIndices(rs + [res]) == Indices(q) + ResultIndices(rs)
  {
    ResultIndicesAppend(rs, [res]);
    assert ResultIndices([res]) == multiset{res.index} + ResultIndices([]) by {
      assert [res][1..] == [];
    }
    assert Indices(q) == multiset{q[0].index} + Indices(q[1..]);
  }

  /** The queue after `k` items were each taken and put straight back. */
  function Rotate(q: seq<PieceWork>, k: nat): (r: seq<PieceWork>)
    requires q != []
    ensures |r| == |q| && multiset(r) == multiset(q)
  {
    if k == 0 then q else Requeue(Rotate(q, k - 1))
  }

  /** Putting back the first `k` items moves exactly them to the end. */
  lemma {:induction false} RotateSplit(q: seq<PieceWork>, k: nat)
    requires q != [] && k <= |q|
    ensures Rotate(q, k) == q[k..] + q[..k]
  {
    if k == 0 {
      assert q[..0] == [] && q[0..] == q;
    } else {
      RotateSplit(q, k - 1);
      MoveFront(q, k);
    }
  }

  /** Moving the front of `q[k - 1..] + q[..k - 1]` to its end gives
      `q[k..] + q[..k]`. */
  lemma {:induction false} MoveFront(q: seq<PieceWork>, k: nat)
    requires 0 < k <= |q|
    ensures var r := q[k - 1..] + q[..k - 1]; r[1..] + [r[0]] == q[k..] + q[..k]
  {
    var r := q[k - 1..] + q[..k - 1];
    assert r[1..] == q[k..] + q[..k - 1];
    assert q[..k] == q[..k - 1] + [q[k - 1]];
  }

  /** Once round the queue brings every item back to where it was. */
  lemma RotateAll(q: seq<PieceWork>)
    requires q != []
    ensures Rotate(q, |q|) == q
  {
    RotateSplit(q, |q|);
  }

  /** `outcomes` says how each of `taken` passes ended: every pass but the
      last continued the loop, and the worker exited exactly when the last one
      was a failed download. */
  predicate Ran(outcomes: seq<ItemOutcome>, taken: nat, exited: bool)
  {
    && |outcomes| == taken
    && (forall k :: 0 <= k < |outcomes| - 1 ==> Continues(outcomes[k]))
    && (exited <==> outcomes != [] && outcomes[|outcomes| - 1].DownloadFailed?)
  }

  /** One more pass of a worker that has not exited. */
  lemma RanExtend(outcomes: seq<ItemOutcome>, taken: nat, o: ItemOutcome)
    requires Ran(outcomes, taken, false)
    ensures Ran(outcomes + [o], taken + 1, !Continues(o))
  {
  }

  /** The queue after one pass with outcome `o`: a completed piece leaves it,
      every other item goes back to the tail. */
  function Advance(q: seq<PieceWork>, o: ItemOutcome): (r: seq<PieceWork>)
    requires q != []
    ensures o.Completed? ==> r == q[1..]
    ensures !o.Completed? ==> |r| == |q| && r[|r| - 1] == q[0] && r[..|r| - 1] == q[1..]
  {
    if o.Completed? then q[1..] else Requeue(q)
  }

  /** How many passes completed a piece. */
  function CountCompleted(outcomes: seq<ItemOutcome>): (n: nat)
    ensures n <= |outcomes|
  {
    if outcomes == [] then 0
    else CountCompleted(outcomes[..|outcomes| - 1]) + if outcomes[|outcomes| - 1].Completed? then 1 else 0
  }

  /** Consecutive stages each `Moves` to the next. */
  predicate Walk(stages: seq<Stage>, outcomes: seq<ItemOutcome>)
  {
    && |stages| == |outcomes| + 1
    && forall k {:trigger outcomes[k]} :: 0 <= k < |outcomes| ==> Moves(stages[k], outcomes[k], stages[k + 1])
  }

  /** Every pass of a walk `Worked`, pass `k` through the attempt `runs[k]`. */
  ghost predicate Record(intact: (PieceWork, seq<byte>) -> bool, stages: seq<Stage>, runs: seq<Run>,
                         outcomes: seq<ItemOutcome>)
    decreases |outcomes|
  {
    && |stages| == |outcomes| + 1 && |runs| == |outcomes|
    && (outcomes != [] ==>
          var n := |outcomes| - 1;
          && Record(intact, stages[..n + 1], runs[..n], outcomes[..n])
          && Worked(intact, stages[n], outcomes[n], runs[n], stages[n + 1]))
  }

  /** The worker loop's trace: `stages[k]` is the state before pass `k`,
      which ended in `outcomes[k]` after the attempt `runs[k]`, and every pass
      is a `Pass`. */
  ghost predicate Trace(intact: (PieceWork, seq<byte>) -> bool, stages: seq<Stage>, runs: seq<Run>,
                        outcomes: seq<ItemOutcome>)
  {
    Walk(stages, outcomes) && Record(intact, stages, runs, outcomes)
  }

  /** Every pass `k` of a record `Worked` from `stages[k]` to `stages[k + 1]`
      through the attempt `runs[k]`. */
  lemma {:induction false} RecordWorked(intact: (PieceWork, seq<byte>) -> bool, stages: seq<Stage>, runs: seq<Run>,
                                        outcomes: seq<ItemOutcome>, k: nat)
    requires Record(intact, stages, runs, outcomes) && k < |outcomes|
    ensures Worked(intact, stages[k], outcomes[k], runs[k], stages[k + 1])
    decreases |outcomes|
  {
    var n := |outcomes| - 1;
    if k < n {
      var ss, rs, os := stages[..n + 1], runs[..n], outcomes[..n];
      RecordWorked(intact, ss, rs, os, k);
      assert ss[k] == stages[k] && ss[k + 1] == stages[k + 1] && os[k] == outcomes[k] && rs[k] == runs[k];
    }
  }

  /** Every pass `k` of a trace is a `Pass` from `stages[k]` to
      `stages[k + 1]` through the attempt `runs[k]`. */
  lemma TracePass(intact: (PieceWork, seq<byte>) -> bool, stages: seq<Stage>, runs: seq<Run>,
                  outcomes: seq<ItemOutcome>, k: nat)
    requires Trace(intact, stages, runs, outcomes) && k < |outcomes|
    ensures Pass(intact, stages[k], outcomes[k], runs[k], stages[k + 1])
  {
    RecordWorked(intact, stages, runs, outcomes, k);
  }

  /** One more move extends a walk. */
  lemma WalkExtend(stages: seq<Stage>, outcomes: seq<ItemOutcome>, s: Stage, o: ItemOutcome)
    requires Walk(stages, outcomes) && Moves(stages[|outcomes|], o, s)
    ensures Walk(stages + [s], outcomes + [o])
  {
    var ss, os := stages + [s], outcomes + [o];
    forall k | 0 <= k < |os|
      ensures Moves(ss[k], os[k], ss[k + 1])
    {
      if k < |outcomes| {
        assert os[k] == outcomes[k] && ss[k] == stages[k] && ss[k + 1] == stages[k + 1];
      } else {
        assert os[k] == o && ss[k] == stages[k] && ss[k + 1] == s;
      }
    }
  }

  /** One more pass of the worker loop extends its trace. */
  lemma TraceExtend(intact: (PieceWork, seq<byte>) -> bool, stages: seq<Stage>, runs: seq<Run>,
                    outcomes: seq<ItemOutcome>, s: Stage, run: Run, o: ItemOutcome)
    requires Trace(intact, stages, runs, outcomes)
    requires Pass(intact, stages[|outcomes|], o, run, s)
    ensures Trace(intact, stages + [s], runs + [run], outcomes + [o])
    ensures CountCompleted(outcomes + [o]) == CountCompleted(outcomes) + if o.Completed? then 1 else 0
  {
    WalkExtend(stages, outcomes, s, o);
    var ss, rs, os := stages + [s], runs + [run], outcomes + [o];
    assert os[..|outcomes|] == outcomes && rs[..|outcomes|] == runs;
    assert ss[..|outcomes| + 1] == stages;
    assert ss[|outcomes|] == stages[|outcomes|] && ss[|outcomes| + 1] == s && os[|outcomes|] == o && rs[|outcomes|] == run;
  }

  /** No pass completed a piece, so none was counted. */
  lemma {:induction false} NoneCompleted(outcomes: seq<ItemOutcome>)
    requires forall k :: 0 <= k < |outcomes| ==> outcomes[k].Unavailable?
    ensures CountCompleted(outcomes) == 0
    decreases |outcomes|
  {
    if outcomes != [] {
      var init := outcomes[..|outcomes| - 1];
      assert forall k :: 0 <= k < |init| ==> init[k] == outcomes[k];
      NoneCompleted(init);
    }
  }

  /** The first `k` passes found their piece unavailable. */
  predicate AllUnavailable(outcomes: seq<ItemOutcome>, k: nat)
  {
    k <= |outcomes| && forall j :: 0 <= j < k ==> outcomes[j].Unavailable?
  }

  /** Pass `k` of a walk that started from a queue none of whose pieces the
      peer holds, reached a rotation of it with the connection and the results
      as they were, and found every earlier piece unavailable, finds its piece
      unavailable too and rotates the queue once more. */
  lemma NoneHeldStep(stages: seq<Stage>, outcomes: seq<ItemOutcome>, k: nat)
    requires Walk(stages, outcomes) && k < |outcomes| && stages[0].queue != []
    requires forall w :: w in stages[0].queue ==> !Bitfield.HasPieceBounded(stages[0].link.bitfield, w.index)
    requires stages[k].queue == Rotate(stages[0].queue, k)
    requires stages[k].link == stages[0].link && stages[k].results == stages[0].results
    requires AllUnavailable(outcomes, k)
    ensures stages[k + 1].queue == Rotate(stages[0].queue, k + 1)
    ensures stages[k + 1].link == stages[0].link && stages[k + 1].results == stages[0].results
    ensures AllUnavailable(outcomes, k + 1)
  {
    var q := stages[k].queue;
    assert Moves(stages[k], outcomes[k], stages[k + 1]);
    assert q[0] in stages[0].queue by {
      assert q[0] in multiset(q);
    }
  }

  /** Along a walk that starts from a queue none of whose pieces the peer
      holds, the first `k` passes each found their piece unavailable, left the
      connection and the results alone and only rotated the queue. */
  lemma {:induction false} NoneHeldRotates(stages: seq<Stage>, outcomes: seq<ItemOutcome>, k: nat)
    requires Walk(stages, outcomes) && k <= |outcomes| && stages[0].queue != []
    requires forall w :: w in stages[0].queue ==> !Bitfield.HasPieceBounded(stages[0].link.bitfield, w.index)
    ensures stages[k].queue == Rotate(stages[0].queue, k)
    ensures stages[k].link == stages[0].link && stages[k].results == stages[0].results
    ensures AllUnavailable(outcomes, k)
  {
    if k > 0 {
      NoneHeldRotates(stages, outcomes, k - 1);
      NoneHeldStep(stages, outcomes, k - 1);
    }
  }

  /** The passes recorded in `outcomes` and `stages` lead from stage `s0` to
      the pool and connection as they are now: the results only grew, by one
      per completed piece. */
  ghost predicate Logged(pool: Pool, c: Client, intact: (PieceWork, seq<byte>) -> bool, s0: Stage,
                         stages: seq<Stage>, runs: seq<Run>, outcomes: seq<ItemOutcome>)
    reads pool, c, c.bitfield
  {
    && Trace(intact, stages, runs, outcomes)
    && stages[0] == s0 && stages[|outcomes|] == Staged(pool, c)
    && s0.results <= pool.results && |pool.results| == |s0.results| + CountCompleted(outcomes)
  }

  /** The body of the worker loop: one `WorkerStep`, added to the record of
      the passes before it. */
  method Turn(pool: Pool, c: Client, intact: (PieceWork, seq<byte>) -> bool,
              ghost s0: Stage, ghost stages: seq<Stage>, ghost runs: seq<Run>, ghost outcomes: seq<ItemOutcome>)
    returns (outcome: ItemOutcome, ghost stages': seq<Stage>, ghost runs': seq<Run>)
    requires pool.queue != [] && Logged(pool, c, intact, s0, stages, runs, outcomes)
    modifies pool, c, c.bitfield
    ensures Logged(pool, c, intact, s0, stages', runs', outcomes + [outcome])
    ensures Unresolved(pool) == old(Unresolved(pool))
    ensures c.bitfield == old(c.bitfield) && c.chokedRequests == old(c.chokedRequests)
  {
    ghost var run := Attempted(Linked(c), pool.queue[0]);
    var haveSent;
    outcome, haveSent := WorkerStep(pool, c, intact);
    TraceExtend(intact, stages, runs, outcomes, Staged(pool, c), run, outcome);
    stages', runs' := stages + [Staged(pool, c)], runs + [run];
  }

  /** The first `turns` passes of a worker's loop; `outcomes` says how each
      pass ended, `stages` what the loop held before and after each, and
      `runs` how the attempt of each pass at a piece the peer holds went. It
      stops early when the attempt fails (the worker exits) or when the queue
      is empty (the Go worker would block there). A worker whose peer has none
      of the queued pieces only rotates the queue, so after one pass per item
      the queue is as it was and nothing else changed. */
  method RunWorker(pool: Pool, c: Client, intact: (PieceWork, seq<byte>) -> bool, turns: nat)
    returns (taken: nat, exited: bool, outcomes: seq<ItemOutcome>, ghost stages: seq<Stage>, ghost runs: seq<Run>)
    modifies pool, c, c.bitfield
    ensures taken <= turns
    ensures Ran(outcomes, taken, exited)
    ensures Trace(intact, stages, runs, outcomes)
    ensures stages[0] == old(Staged(pool, c)) && stages[taken] == Staged(pool, c)
    ensures old(pool.results) <= pool.results
    ensures |pool.results| == |old(pool.results)| + CountCompleted(outcomes)
    ensures taken < turns ==> exited || pool.queue == []
    ensures Unresolved(pool) == old(Unresolved(pool))
    ensures c.chokedRequests == old(c.chokedRequests)
    ensures old(pool.queue) != [] &&
            (forall w :: w in old(pool.queue) ==> !Bitfield.HasPieceBounded(old(c.bitfield[..]), w.index))
            ==> !exited && taken == turns && pool.queue == Rotate(old(pool.queue), turns)
                && pool.results == old(pool.results) && Linked(c) == old(Linked(c))
  {
    taken, exited, outcomes := 0, false, [];
    stages, runs := [Staged(pool, c)], [];
    while taken < turns && pool.queue != [] && !exited
      invariant taken <= turns
      invariant Ran(outcomes, taken, exited)
      invariant Logged(pool, c, intact, old(Staged(pool, c)), stages, runs, outcomes)
      invariant Unresolved(pool) == old(Unresolved(pool))
      invariant c.chokedRequests == old(c.chokedRequests)
      invariant c.bitfield == old(c.bitfield)
      decreases turns - taken
    {
      var outcome;
      outcome, stages, runs := Turn(pool, c, intact, old(Staged(pool, c)), stages, runs, outcomes);
      RanExtend(outcomes, taken, outcome);
      outcomes := outcomes + [outcome];
      taken := taken + 1;
      exited := !Continues(outcome);
    }
    if old(pool.queue) != [] &&
       forall w :: w in old(pool.queue) ==> !Bitfield.HasPieceBounded(old(c.bitfield[..]), w.index)
    {
      NoneHeldRotates(stages, outcomes, taken);
    }
  }
}
