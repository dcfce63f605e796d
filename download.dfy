/** Downloading one piece from one peer (p2p/p2p.go:11-55, p2p/p2p.go:95-120;
    the same code appears in main.go:14-58 and main.go:264-289): keep up to
    `MaxBacklog` block requests in flight while unchoked, and react to each
    message the peer sends until the whole piece has arrived. */
module Download {
  import opened Base
  import opened Message
  import opened PeerClient
  import Bitfield

  /** The largest number of bytes one request asks for. */
  const MaxBlockSize: nat := 16384

  /** The bound the request loop keeps the backlog counter under. The counter
      is requests written minus `piece` messages accepted. */
  const MaxBacklog: nat := 5

  /** A piece still to be fetched: its index, expected SHA-1 and length. */
  datatype PieceWork = PieceWork(index: nat, hash: Digest, length: nat)

  /** The size of the next block: a whole `MaxBlockSize` block, or the rest of
      the piece when less than that remains. */
  function BlockSize(length: nat, requested: nat): (r: nat)
    requires requested < length
    ensures 0 < r <= MaxBlockSize
    ensures requested + r <= length
    ensures r == MaxBlockSize || requested + r == length
  {
    if length - requested < MaxBlockSize then length - requested else MaxBlockSize
  }

  // ---------------------------------------------------------------------------
  // The requests of one attempt

  /** `reqs` asks for bytes `[from, upto)` of piece `index`, block after block
      in increasing order, each block sized by `BlockSize`. */
  predicate Tiles(reqs: seq<Outgoing>, index: nat, length: nat, from: nat, upto: nat)
    decreases |reqs|
  {
    if reqs == [] then from == upto
    else
      && from < length
      && reqs[0] == Request(index, from, BlockSize(length, from))
      && Tiles(reqs[1..], index, length, from + BlockSize(length, from), upto)
  }

  /** A tiling of `[from, mid)` followed by a tiling of `[mid, upto)` is a
      tiling of `[from, upto)`: requests issued later continue the earlier ones. */
  lemma {:induction false} TilesAppend(a: seq<Outgoing>, b: seq<Outgoing>, index: nat, length: nat,
                                       from: nat, mid: nat, upto: nat)
    requires Tiles(a, index, length, from, mid) && Tiles(b, index, length, mid, upto)
    ensures Tiles(a + b, index, length, from, upto)
    decreases |a|
  {
    if a == [] {
      assert a + b == b;
    } else {
      TilesAppend(a[1..], b, index, length, from + BlockSize(length, from), mid, upto);
      assert (a + b)[1..] == a[1..] + b;
    }
  }

  /** The requests of an attempt so far, from position `sent0` of what was
      written, still tile the piece from offset 0 after more were written. */
  lemma TilesOnward(before: seq<Outgoing>, after: seq<Outgoing>, sent0: nat, index: nat, length: nat,
                    mid: nat, upto: nat)
    requires sent0 <= |before| && before <= after
    requires Tiles(before[sent0..], index, length, 0, mid)
    requires Tiles(after[|before|..], index, length, mid, upto)
    ensures Tiles(after[sent0..], index, length, 0, upto)
  {
    assert after[sent0..] == before[sent0..] + after[|before|..];
    TilesAppend(before[sent0..], after[|before|..], index, length, 0, mid, upto);
  }

  function End(r: Outgoing): nat
    requires r.Request?
  {
    r.begin + r.length
  }

  /** Request `r` asks for the byte at offset `off`. */
  predicate Covers(r: Outgoing, off: nat)
  {
    r.Request? && r.begin <= off < End(r)
  }

  /** In a tiling every request is a block of the piece, inside `[from, upto)`,
      and each one ends where the next begins, so no two overlap. */
  lemma {:induction false} TilesShape(reqs: seq<Outgoing>, index: nat, length: nat, from: nat, upto: nat)
    requires Tiles(reqs, index, length, from, upto)
    ensures from <= upto && (reqs != [] ==> upto <= length)
    ensures forall k :: 0 <= k < |reqs| ==>
              && reqs[k].Request? && reqs[k].index == index
              && 0 < reqs[k].length <= MaxBlockSize
              && from <= reqs[k].begin && End(reqs[k]) <= upto
    ensures forall k :: 0 <= k < |reqs| - 1 ==> End(reqs[k]) == reqs[k + 1].begin
    ensures reqs != [] ==> reqs[0].begin == from && End(reqs[|reqs| - 1]) == upto
  {
    if reqs != [] {
      var next := from + BlockSize(length, from);
      TilesShape(reqs[1..], index, length, next, upto);
      assert forall k :: 1 <= k < |reqs| ==> reqs[k] == reqs[1..][k - 1];
    }
  }

  /** Every byte of `[from, upto)` is asked for by exactly one request. */
  lemma {:induction false} TilesCover(reqs: seq<Outgoing>, index: nat, length: nat, from: nat, upto: nat, off: nat)
    requires Tiles(reqs, index, length, from, upto) && from <= off < upto
    ensures exists k :: 0 <= k < |reqs| && Covers(reqs[k], off)
    ensures forall k, l :: (0 <= k < |reqs| && 0 <= l < |reqs| &&
              Covers(reqs[k], off) && Covers(reqs[l], off)) ==> k == l
  {
    TilesShape(reqs, index, length, from, upto);
    var next := from + BlockSize(length, from);
    if off < next {
      assert Covers(reqs[0], off);
    } else {
      TilesCover(reqs[1..], index, length, next, upto, off);
      var k :| 0 <= k < |reqs[1..]| && Covers(reqs[1..][k], off);
      assert Covers(reqs[k + 1], off);
    }
    forall k, l | 0 <= k < l < |reqs|
      ensures reqs[k].Request? && reqs[l].Request? && End(reqs[k]) <= reqs[l].begin
    {
      Ordered(reqs, index, length, from, upto, k, l);
    }
  }

  lemma {:induction false} Ordered(reqs: seq<Outgoing>, index: nat, length: nat, from: nat, upto: nat, k: nat, l: nat)
    requires Tiles(reqs, index, length, from, upto) && k < l < |reqs|
    ensures reqs[k].Request? && reqs[l].Request? && End(reqs[k]) <= reqs[l].begin
    decreases l - k
  {
    TilesShape(reqs, index, length, from, upto);
    if k + 1 < l {
      Ordered(reqs, index, length, from, upto, k + 1, l);
    }
  }

  // ---------------------------------------------------------------------------
  // Reacting to one message

  /** The state `readMessage` can change: the connection's choke flag and
      bitfield, and the piece buffer and counters. */
  datatype Snapshot = Snapshot(choked: bool, bitfield: seq<bv8>, buf: seq<byte>,
                               downloaded: int, backlog: int)

  /** The effect of the parser's copy of a block into the piece buffer: the part
      of `block` that falls inside the buffer, at `begin`. */
  function Written(buf: seq<byte>, begin: nat, block: seq<byte>): (r: seq<byte>)
    ensures |r| == |buf|
    ensures forall k :: 0 <= k < |buf| && !(begin <= k < begin + |block|) ==> r[k] == buf[k]
    ensures forall k :: begin <= k < |buf| && k < begin + |block| ==> r[k] == block[k - begin]
  {
    if begin <= |buf| then
      var n := Min(|block|, |buf| - begin);
      buf[..begin] + block[..n] + buf[begin + n..]
    else buf
  }

  datatype DownloadError = ConnectionError | MalformedHave | MalformedPiece | WriteFailed

  /** `readMessage` as written: it never returns an error, but a nil message
      (keep-alive or failed read) is dereferenced, and a `have` beyond the
      bitfield indexes past the slice; both panic. Parser errors are ignored. */
  datatype Reaction = Handled(next: Snapshot) | Panicked

  function ReadMessageAsWritten(st: Snapshot, d: Delivery): (r: Reaction)
    ensures r.Panicked? <==>
              d.ReadFailed? || d.KeepAlive? ||
              (d.Received? && d.msg.id == MsgHave && d.parsed.index / 8 >= |st.bitfield|)
    ensures r.Handled? ==> |r.next.buf| == |st.buf| && |r.next.bitfield| == |st.bitfield|
  {
    match d
    case ReadFailed => Panicked
    case KeepAlive => Panicked
    case Received(msg, p) =>
      if msg.id == MsgUnchoke then Handled(st.(choked := false))
      else if msg.id == MsgChoke then Handled(st.(choked := true))
      else if msg.id == MsgHave then
        if p.index / 8 < |st.bitfield| then
          Handled(st.(bitfield := Bitfield.WithPiece(st.bitfield, p.index)))
        else Panicked
      else if msg.id == MsgPiece then
        Handled(st.(buf := Written(st.buf, p.begin, p.block),
                    downloaded := st.downloaded + p.n, backlog := st.backlog - 1))
      else Handled(st)
  }

  /** `readMessage` with the three defects removed: a keep-alive changes
      nothing, a failed read or a parser error ends the attempt, and a `have`
      beyond the bitfield is ignored. */
  function HandleDelivery(st: Snapshot, d: Delivery): (r: Result<Snapshot, DownloadError>)
    ensures r.Failure? <==> Rejected(d)
    ensures r.Failure? ==>
              r.error == if d.ReadFailed? then ConnectionError
                         else if d.msg.id == MsgHave then MalformedHave else MalformedPiece
    ensures r.Success? ==> |r.value.buf| == |st.buf| && |r.value.bitfield| == |st.bitfield|
  {
    match d
    case ReadFailed => Failure(ConnectionError)
    case KeepAlive => Success(st)
    case Received(msg, p) =>
      if msg.id == MsgUnchoke then Success(st.(choked := false))
      else if msg.id == MsgChoke then Success(st.(choked := true))
      else if msg.id == MsgHave then
        if !p.ok then Failure(MalformedHave)
        else Success(st.(bitfield := Bitfield.WithPieceBounded(st.bitfield, p.index)))
      else if msg.id == MsgPiece then
        if !p.ok then Failure(MalformedPiece)
        else Success(st.(buf := Written(st.buf, p.begin, p.block),
                         downloaded := st.downloaded + p.n, backlog := st.backlog - 1))
      else Success(st)
  }

  /** The deliveries that end an attempt whatever its state: a failed read, and
      a `have` or `piece` the parser rejects. */
  predicate Rejected(d: Delivery)
  {
    d.ReadFailed? || (d.Received? && !d.parsed.ok && d.msg.id in {MsgHave, MsgPiece})
  }

  /** The pieces of `after` are those of `before`, and possibly more. */
  ghost predicate PiecesGained(before: seq<bv8>, after: seq<bv8>)
  {
    |after| == |before| &&
    forall j: nat :: Bitfield.HasPieceBounded(before, j) ==> Bitfield.HasPieceBounded(after, j)
  }

  /** What the download loop needs of an accepted delivery: the bitfield only
      gains pieces and the backlog never grows. */
  lemma HandleDeliveryKeeps(st: Snapshot, d: Delivery)
    requires HandleDelivery(st, d).Success?
    ensures var st' := HandleDelivery(st, d).value;
      PiecesGained(st.bitfield, st'.bitfield) && st'.backlog <= st.backlog
  {
    HandleDeliveryEffect(st, d);
  }

  /** What one handled message can do: `unchoke` and `choke` set the flag, a
      `have` adds its piece and no other, a `piece` moves `downloaded` up by
      the parser's count and `backlog` down by one, and every other message
      changes nothing at all. Buffer and bitfield keep their sizes. */
  lemma HandleDeliveryEffect(st: Snapshot, d: Delivery)
    requires HandleDelivery(st, d).Success?
    ensures var st' := HandleDelivery(st, d).value;
      && |st'.buf| == |st.buf| && PiecesGained(st.bitfield, st'.bitfield)
      && st'.downloaded >= st.downloaded
      && (st'.choked != st.choked ==> d.Received? && d.msg.id in {MsgChoke, MsgUnchoke})
      && (d.Received? && d.msg.id == MsgUnchoke ==> !st'.choked)
      && (d.Received? && d.msg.id == MsgChoke ==> st'.choked)
      && (d.Received? && d.msg.id == MsgPiece ==>
            && st'.backlog == st.backlog - 1 && st'.downloaded == st.downloaded + d.parsed.n
            && st'.buf == Written(st.buf, d.parsed.begin, d.parsed.block))
      && (!(d.Received? && d.msg.id == MsgPiece) ==>
            st'.backlog == st.backlog && st'.downloaded == st.downloaded && st'.buf == st.buf)
      && (forall j: nat :: Bitfield.HasPieceBounded(st'.bitfield, j) ==
            (Bitfield.HasPieceBounded(st.bitfield, j) ||
             (d.Received? && d.msg.id == MsgHave && j == d.parsed.index && j / 8 < |st.bitfield|)))
      && ((d.KeepAlive? || (d.Received? && d.msg.id !in {MsgChoke, MsgUnchoke, MsgHave, MsgPiece}))
            ==> st' == st)
  {
    var st' := HandleDelivery(st, d).value;
    forall j: nat
      ensures Bitfield.HasPieceBounded(st'.bitfield, j) ==
                (Bitfield.HasPieceBounded(st.bitfield, j) ||
                 (d.Received? && d.msg.id == MsgHave && j == d.parsed.index && j / 8 < |st.bitfield|))
    {
      if d.Received? && d.msg.id == MsgHave {
        Bitfield.BoundedSetThenHas(st.bitfield, d.parsed.index, j);
      }
    }
  }

  /** Finding: as written, a keep-alive or a failed read panics (the nil
      message is dereferenced); once corrected, a keep-alive changes nothing
      and a failed read ends the attempt with an error. */
  lemma NilMessagePanicsAsWritten(st: Snapshot)
    ensures ReadMessageAsWritten(st, KeepAlive) == Panicked
    ensures ReadMessageAsWritten(st, ReadFailed) == Panicked
    ensures HandleDelivery(st, KeepAlive) == Success(st)
    ensures HandleDelivery(st, ReadFailed) == Failure(ConnectionError)
  {
  }

  /** Finding: as written, a `piece` the parser rejects still counts as an
      answered request, and a rejected `have` inside the bitfield still sets
      the bit; corrected, the attempt ends with the parser's error. */
  lemma ParseErrorIgnoredAsWritten(st: Snapshot, msg: Message, p: Parsed)
    requires !p.ok
    ensures msg.id == MsgPiece ==>
              ReadMessageAsWritten(st, Received(msg, p)).Handled? &&
              ReadMessageAsWritten(st, Received(msg, p)).next.backlog == st.backlog - 1 &&
              HandleDelivery(st, Received(msg, p)) == Failure(MalformedPiece)
    ensures msg.id == MsgHave && p.index / 8 < |st.bitfield| ==>
              ReadMessageAsWritten(st, Received(msg, p))
              == Handled(st.(bitfield := Bitfield.WithPiece(st.bitfield, p.index)))
    ensures msg.id == MsgHave ==> HandleDelivery(st, Received(msg, p)) == Failure(MalformedHave)
  {
  }

  /** Finding: as written, a `have` for a piece beyond the bitfield panics;
      corrected, it is ignored. */
  lemma DistantHavePanicsAsWritten(st: Snapshot, msg: Message, p: Parsed)
    requires msg.id == MsgHave && p.ok && p.index / 8 >= |st.bitfield|
    ensures ReadMessageAsWritten(st, Received(msg, p)) == Panicked
    ensures HandleDelivery(st, Received(msg, p)) == Success(st)
  {
  }

  /** Apart from those three cases the correction changes nothing: on every
      parsed message whose `have` index lies inside the bitfield the two
      versions reach the same state. */
  lemma CorrectionIsConservative(st: Snapshot, msg: Message, p: Parsed)
    requires p.ok && (msg.id == MsgHave ==> p.index / 8 < |st.bitfield|)
    ensures HandleDelivery(st, Received(msg, p)).Success?
    ensures ReadMessageAsWritten(st, Received(msg, p))
            == Handled(HandleDelivery(st, Received(msg, p)).value)
  {
  }

  // ---------------------------------------------------------------------------
  // The attempt as a function of the connection's scripts

  /** The state of an attempt with what the connection will still do: the
      reads to come, whether each coming write succeeds, and what was sent. */
  datatype Session = Session(st: Snapshot, requested: nat, inbox: seq<Delivery>,
                             writes: seq<bool>, sent: seq<Outgoing>)

  /** The session an attempt at `pw` starts from over connection `c`. */
  function Begin(c: Client, pw: PieceWork): (r: Session)
    reads c, c.bitfield
    ensures |r.st.buf| == pw.length && r.st.downloaded == 0 && r.st.backlog == 0 && r.requested == 0
  {
    Session(Snapshot(c.choked, c.bitfield[..], Zeros(pw.length), 0, 0), 0, c.inbox, c.writes, c.sent)
  }

  /** `a` is what is left of script `b` once a prefix of it was consumed. */
  predicate Suffix<T(==)>(a: seq<T>, b: seq<T>)
  {
    |a| <= |b| && a == b[|b| - |a|..]
  }

  lemma SuffixTrans<T>(a: seq<T>, b: seq<T>, c: seq<T>)
    requires Suffix(a, b) && Suffix(b, c)
    ensures Suffix(a, c)
  {
    assert c[|c| - |a|..] == c[|c| - |b|..][|b| - |a|..];
  }

  /** The request loop's condition: room in the pipeline and bytes left to ask for. */
  predicate Pending(s: Session, length: nat)
  {
    s.st.backlog < MaxBacklog && s.requested < length
  }

  /** The session after a successful write of the request for the next block. */
  function Issue(s: Session, index: nat, length: nat): (r: Session)
    requires s.requested < length && s.writes != []
    ensures s.requested < r.requested <= length && r.requested - s.requested <= MaxBlockSize
    ensures r.st == s.st.(backlog := s.st.backlog + 1) && r.inbox == s.inbox && |r.writes| == |s.writes| - 1
    ensures r.sent == s.sent + [Request(index, s.requested, r.requested - s.requested)]
  {
    var size := BlockSize(length, s.requested);
    Session(s.st.(backlog := s.st.backlog + 1), s.requested + size, s.inbox,
            s.writes[1..], s.sent + [Request(index, s.requested, size)])
  }

  /** The inner request loop: while `Pending`, write a request for the next
      block; the boolean is false when a write failed. It reads nothing and
      never takes `requested` past the piece. */
  function SendRequests(s: Session, index: nat, length: nat): (r: (Session, bool))
    requires s.requested <= length
    ensures s.requested <= r.0.requested <= length && r.0.inbox == s.inbox
    decreases length - s.requested
  {
    if !Pending(s, length) then (s, true)
    else if s.writes == [] then (s, false)
    else if !s.writes[0] then (s.(writes := s.writes[1..]), false)
    else SendRequests(Issue(s, index, length), index, length)
  }

  /** One pass's requests: none while choked. */
  function Fill(s: Session, index: nat, length: nat): (r: (Session, bool))
    requires s.requested <= length
    ensures s.requested <= r.0.requested <= length && r.0.inbox == s.inbox
  {
    if s.st.choked then (s, true) else SendRequests(s, index, length)
  }

  /** The session after the first read, which left the state `st`. */
  function Deliver(s: Session, st: Snapshot): Session
    requires s.inbox != []
  {
    s.(st := st, inbox := s.inbox[1..])
  }

  /** `attemptDownloadPiece` on a session: until `downloaded` reaches the
      piece length, fill the pipeline when unchoked, then handle one read; a
      read from an exhausted script fails. */
  function Attempt(s: Session, index: nat, length: nat): (r: (Result<seq<byte>, DownloadError>, Session))
    requires s.requested <= length
    ensures s.requested <= r.1.requested <= length
    decreases |s.inbox|
  {
    if s.st.downloaded >= length then (Success(s.st.buf), s)
    else
      var (s1, ok) := Fill(s, index, length);
      if !ok then (Failure(WriteFailed), s1)
      else if s1.inbox == [] then (Failure(ConnectionError), s1)
      else match HandleDelivery(s1.st, s1.inbox[0])
        case Failure(e) => (Failure(e), Deliver(s1, s1.st))
        case Success(st') => Attempt(Deliver(s1, st'), index, length)
  }

  /** The first `w` writes of script `ws` were true and were used up by `w`
      requests; the one after them was used up too when the loop reported a
      failure (`ok` false): it was false, or the script had run out. `rest` is
      what is left of the script. */
  predicate WritesUsed(ws: seq<bool>, w: int, rest: seq<bool>, ok: bool)
  {
    && AllTrue(ws, w)
    && (ok ==> rest == ws[w..])
    && (!ok ==> if w < |ws| then !ws[w] && rest == ws[w + 1..] else rest == [])
  }

  /** The facts about one call of the request loop that `RequestBlocks` states. */
  lemma RequestsMeaning(s: Session, index: nat, length: nat)
    requires s.requested <= length
    ensures var (f, ok) := SendRequests(s, index, length);
      var w := |f.sent| - |s.sent|;
      && s.sent <= f.sent && f.st.backlog - s.st.backlog == w && WritesUsed(s.writes, w, f.writes, ok)
      && Tiles(f.sent[|s.sent|..], index, length, s.requested, f.requested)
      && (s.st.backlog <= MaxBacklog ==> f.st.backlog <= MaxBacklog)
      && (ok ==> f.st.backlog >= MaxBacklog || f.requested == length)
  {
    SendRequestsFrame(s, index, length);
    SendRequestsWrites(s, index, length);
    SendRequestsStop(s, index, length);
  }

  /** A tiling spans at most one full block per request. */
  lemma {:induction false} TilesSpan(reqs: seq<Outgoing>, index: nat, length: nat, from: nat, upto: nat)
    requires Tiles(reqs, index, length, from, upto)
    ensures upto <= from + |reqs| * MaxBlockSize
    decreases |reqs|
  {
    if reqs != [] {
      TilesSpan(reqs[1..], index, length, from + BlockSize(length, from), upto);
    }
  }

  /** The backlog counts requests written minus `piece` messages accepted, and
      an accepted `piece` lowers it whether or not it answered a request
      (`HandleDeliveryEffect`). So it is not the number of unanswered requests:
      after three unsolicited blocks it is -3, and the next run of the request
      loop, given eight good writes, sends eight requests at once. */
  lemma UnsolicitedPiecesWidenPipeline(s: Session, index: nat, length: nat)
    requires s.st.backlog == -3 && s.requested == 0 && length >= 8 * MaxBlockSize
    requires |s.writes| >= 8 && forall k :: 0 <= k < 8 ==> s.writes[k]
    ensures var f := SendRequests(s, index, length).0;
      |f.sent| == |s.sent| + 8 && f.st.backlog == MaxBacklog
  {
    RequestsMeaning(s, index, length);
    var (f, ok) := SendRequests(s, index, length);
    var w := |f.sent| - |s.sent|;
    TilesSpan(f.sent[|s.sent|..], index, length, 0, f.requested);
    assert AllTrue(s.writes, w);
  }

  /** One turn of the request loop. */
  lemma SendRequestsStep(s: Session, index: nat, length: nat)
    requires s.requested <= length && Pending(s, length)
    ensures s.writes != [] && s.writes[0] ==>
              SendRequests(s, index, length) == SendRequests(Issue(s, index, length), index, length)
    ensures !(s.writes != [] && s.writes[0]) ==>
              SendRequests(s, index, length)
              == (s.(writes := if s.writes == [] then [] else s.writes[1..]), false)
  {
  }

  /** One round of an attempt that has not reached the piece length. */
  lemma AttemptRound(s: Session, index: nat, length: nat, s1: Session, ok: bool)
    requires s.requested <= length && s.st.downloaded < length
    requires Fill(s, index, length) == (s1, ok)
    ensures !ok ==> Attempt(s, index, length) == (Failure(WriteFailed), s1)
    ensures ok && s1.inbox == [] ==> Attempt(s, index, length) == (Failure(ConnectionError), s1)
    ensures ok && s1.inbox != [] && HandleDelivery(s1.st, s1.inbox[0]).Failure? ==>
              Attempt(s, index, length)
              == (Failure(HandleDelivery(s1.st, s1.inbox[0]).error), Deliver(s1, s1.st))
    ensures ok && s1.inbox != [] && HandleDelivery(s1.st, s1.inbox[0]).Success? ==>
              Attempt(s, index, length)
              == Attempt(Deliver(s1, HandleDelivery(s1.st, s1.inbox[0]).value), index, length)
  {
  }

  /** `readMessage` on a session: take the next delivery, a failed read once
      the script is exhausted, and apply it to the state. */
  function ReadStep(s: Session): (r: (Option<DownloadError>, Session))
    ensures r.1.requested == s.requested && r.1.writes == s.writes && r.1.sent == s.sent
    ensures r.1.inbox == if s.inbox == [] then [] else s.inbox[1..]
    ensures s.inbox == [] ==> r == (Some(ConnectionError), s)
    ensures r.0.Some? ==> r.1.st == s.st
  {
    var d := if s.inbox == [] then ReadFailed else s.inbox[0];
    var rest := if s.inbox == [] then [] else s.inbox[1..];
    var h := HandleDelivery(s.st, d);
    if h.Failure? then (Some(h.error), s.(inbox := rest)) else (None, s.(st := h.value, inbox := rest))
  }

  /** One round of an attempt, as the request loop followed by one read:
      the attempt either ends with the round's error `err` in state `s2` or
      goes on from `s2`. */
  lemma RoundStep(s: Session, index: nat, length: nat, s1: Session, ok: bool,
                  err: Option<DownloadError>, s2: Session)
    requires s.requested <= length && s.st.downloaded < length
    requires Fill(s, index, length) == (s1, ok)
    requires if ok then (err, s2) == ReadStep(s1) else err == Some(WriteFailed) && s2 == s1
    ensures Attempt(s, index, length)
            == if err.None? then Attempt(s2, index, length) else (Failure(err.value), s2)
  {
    AttemptRound(s, index, length, s1, ok);
  }

  /** What a call of the request loop writes: one request per block, tiling
      the piece on from `requested`, with the backlog raised by one for each
      and nothing else of the state touched. */
  lemma {:induction false} SendRequestsFrame(s: Session, index: nat, length: nat)
    requires s.requested <= length
    ensures var f := SendRequests(s, index, length).0;
      && |s.sent| <= |f.sent| && f.sent[..|s.sent|] == s.sent
      && Tiles(f.sent[|s.sent|..], index, length, s.requested, f.requested)
      && f.st == s.st.(backlog := s.st.backlog + (|f.sent| - |s.sent|))
      && (s.st.backlog <= MaxBacklog ==> f.st.backlog <= MaxBacklog)
    decreases length - s.requested
  {
    if Pending(s, length) && s.writes != [] && s.writes[0] {
      var s' := Issue(s, index, length);
      var req := s'.sent[|s.sent|];
      SendRequestsStep(s, index, length);
      SendRequestsFrame(s', index, length);
      var f := SendRequests(s', index, length).0;
      var n := |s.sent|;
      var rest := f.sent[n + 1..];
      assert s'.sent == s.sent + [req];
      assert f.sent[..n] == f.sent[..n + 1][..n];
      assert f.sent[n] == f.sent[..n + 1][n] == req;
      assert f.sent[n..] == [req] + rest;
      assert ([req] + rest)[1..] == rest;
      assert Tiles([req] + rest, index, length, s.requested, f.requested);
    } else {
      assert s.sent[|s.sent|..] == [];
    }
  }

  /** The first `n` scripted writes are all true. */
  predicate AllTrue(ws: seq<bool>, n: int)
  {
    0 <= n <= |ws| && forall k :: 0 <= k < n ==> ws[k]
  }

  /** Consuming the first `used` writes stopped at a failed one: the script ran
      out after true writes only, or the last write consumed was the first
      false one. */
  predicate Stopped(ws: seq<bool>, used: int, rest: seq<bool>)
  {
    (rest == [] && AllTrue(ws, used)) || (0 < used <= |ws| && !ws[used - 1] && AllTrue(ws, used - 1))
  }

  /** The scripted writes a call of the request loop consumes for the requests
      it wrote: one per request, all of them true; when it reports success the
      rest of the script is untouched and the pipeline is full or the piece
      fully requested. */
  lemma {:induction false} SendRequestsWrites(s: Session, index: nat, length: nat)
    requires s.requested <= length
    ensures var (f, ok) := SendRequests(s, index, length);
      var w := |f.sent| - |s.sent|;
      && AllTrue(s.writes, w)
      && (ok ==> f.writes == s.writes[w..] && (f.st.backlog >= MaxBacklog || f.requested == length))
    decreases length - s.requested
  {
    if Pending(s, length) && s.writes != [] && s.writes[0] {
      var s' := Issue(s, index, length);
      SendRequestsWrites(s', index, length);
      var w' := |SendRequests(s', index, length).0.sent| - |s'.sent|;
      assert forall k :: 1 <= k < w' + 1 ==> s.writes[k] == s'.writes[k - 1];
      assert s'.writes[w'..] == s.writes[w' + 1..];
    } else {
      assert s.writes[0..] == s.writes;
    }
  }

  /** A call of the request loop that reports a failed write stopped at the
      first false write after the true ones, or found the script exhausted. */
  lemma {:induction false} SendRequestsStop(s: Session, index: nat, length: nat)
    requires s.requested <= length
    ensures var (f, ok) := SendRequests(s, index, length);
      var w := |f.sent| - |s.sent|;
      !ok ==> 0 <= w && if w < |s.writes| then !s.writes[w] && f.writes == s.writes[w + 1..]
                        else f.writes == []
    decreases length - s.requested
  {
    if Pending(s, length) && s.writes != [] && s.writes[0] {
      var s' := Issue(s, index, length);
      SendRequestsWrites(s', index, length);
      SendRequestsStop(s', index, length);
      var w' := |SendRequests(s', index, length).0.sent| - |s'.sent|;
      if w' < |s'.writes| {
        assert s'.writes[w'] == s.writes[w' + 1];
        assert s'.writes[w' + 1..] == s.writes[w' + 2..];
      }
    }
  }

  /** The writes one pass's requests consume: all true when they succeed, and
      `Stopped` when one failed. */
  lemma FillWrites(s: Session, index: nat, length: nat)
    requires s.requested <= length
    ensures var (f, ok) := Fill(s, index, length);
      var used := |s.writes| - |f.writes|;
      && Suffix(f.writes, s.writes)
      && (ok ==> AllTrue(s.writes, used)) && (!ok ==> Stopped(s.writes, used, f.writes))
  {
    if !s.st.choked {
      SendRequestsWrites(s, index, length);
      SendRequestsStop(s, index, length);
    }
  }

  /** `AllTrue` and `Stopped` over two consecutive stretches of a script. */
  lemma WritesThen(ws: seq<bool>, a: nat, b: nat, rest: seq<bool>)
    requires AllTrue(ws, a) && a <= |ws|
    ensures AllTrue(ws[a..], b) ==> AllTrue(ws, a + b)
    ensures Stopped(ws[a..], b, rest) ==> Stopped(ws, a + b, rest)
  {
    assert forall k :: a <= k < |ws| ==> ws[k] == ws[a..][k - a];
  }

  /** The state left by one delivery: what `HandleDelivery` makes of it, or the
      state unchanged when the delivery is rejected. */
  function Apply(st: Snapshot, d: Delivery): Snapshot
  {
    match HandleDelivery(st, d)
    case Success(st') => st'
    case Failure(_) => st
  }

  /** The state left by the deliveries `ds`, in order. */
  function Replay(st: Snapshot, ds: seq<Delivery>): Snapshot
    decreases |ds|
  {
    if ds == [] then st else Replay(Apply(st, ds[0]), ds[1..])
  }

  /** A state with its backlog forgotten: the part the requests do not touch. */
  function Unpaced(st: Snapshot): Snapshot
  {
    st.(backlog := 0)
  }

  /** What the backlog was does not change what a delivery does to the rest. */
  lemma ApplyUnpaced(a: Snapshot, b: Snapshot, d: Delivery)
    requires Unpaced(a) == Unpaced(b)
    ensures Unpaced(Apply(a, d)) == Unpaced(Apply(b, d))
  {
    assert b == a.(backlog := b.backlog);
  }

  /** Nor what any sequence of deliveries does to it. */
  lemma {:induction false} ReplayUnpaced(a: Snapshot, b: Snapshot, ds: seq<Delivery>)
    requires Unpaced(a) == Unpaced(b)
    ensures Unpaced(Replay(a, ds)) == Unpaced(Replay(b, ds))
    decreases |ds|
  {
    if ds != [] {
      ApplyUnpaced(a, b, ds[0]);
      ReplayUnpaced(Apply(a, ds[0]), Apply(b, ds[0]), ds[1..]);
    }
  }

  /** An attempt consumes a prefix of the reads and of the writes, and only
      appends to what was sent. */
  lemma {:induction false} AttemptScripts(s: Session, index: nat, length: nat)
    requires s.requested <= length
    ensures var f := Attempt(s, index, length).1;
      Suffix(f.inbox, s.inbox) && Suffix(f.writes, s.writes) && s.sent <= f.sent
    decreases |s.inbox|
  {
    if s.st.downloaded < length {
      var (s1, ok) := Fill(s, index, length);
      AttemptRound(s, index, length, s1, ok);
      FillWrites(s, index, length);
      if !s.st.choked {
        SendRequestsFrame(s, index, length);
      }
      if ok && s1.inbox != [] && HandleDelivery(s1.st, s1.inbox[0]).Success? {
        var s2 := Deliver(s1, HandleDelivery(s1.st, s1.inbox[0]).value);
        AttemptScripts(s2, index, length);
        var f := Attempt(s2, index, length).1;
        SuffixTrans(f.inbox, s2.inbox, s.inbox);
        SuffixTrans(f.writes, s2.writes, s.writes);
      }
    }
  }

  /** Taking one more item off the front of a script. */
  lemma ConsPrefix<T>(xs: seq<T>, n: nat)
    requires n < |xs|
    ensures xs[..n + 1] == [xs[0]] + xs[1..][..n]
  {
  }

  /** Filling the pipeline changes nothing but the backlog of the state. */
  lemma FillUnpaced(s: Session, index: nat, length: nat)
    requires s.requested <= length
    ensures Unpaced(Fill(s, index, length).0.st) == Unpaced(s.st)
  {
    if !s.st.choked {
      SendRequestsFrame(s, index, length);
    }
  }

  /** Replaying a script whose first delivery was accepted. */
  lemma ReplayFront(a: Snapshot, b: Snapshot, ds: seq<Delivery>, n: nat, f: Snapshot)
    requires n < |ds| && Unpaced(a) == Unpaced(b)
    requires Unpaced(f) == Unpaced(Replay(Apply(b, ds[0]), ds[1..][..n]))
    ensures Unpaced(f) == Unpaced(Replay(a, ds[..n + 1]))
  {
    ConsPrefix(ds, n);
    assert Replay(a, ds[..n + 1]) == Replay(Apply(a, ds[0]), ds[1..][..n]) by {
      assert ([ds[0]] + ds[1..][..n])[1..] == ds[1..][..n];
    }
    ApplyUnpaced(b, a, ds[0]);
    ReplayUnpaced(Apply(b, ds[0]), Apply(a, ds[0]), ds[1..][..n]);
  }

  /** Replaying a script whose first delivery was rejected. */
  lemma ReplayRejected(a: Snapshot, b: Snapshot, ds: seq<Delivery>)
    requires ds != [] && Unpaced(a) == Unpaced(b) && HandleDelivery(b, ds[0]).Failure?
    ensures Unpaced(b) == Unpaced(Replay(a, ds[..1]))
  {
    assert ds[..1] == [ds[0]] && [ds[0]][1..] == [];
    assert HandleDelivery(a, ds[0]).Failure?;
  }

  /** Apart from the backlog, the state an attempt ends in is the replay of the
      deliveries it took. */
  lemma {:induction false} AttemptReplay(s: Session, index: nat, length: nat)
    requires s.requested <= length
    ensures var f := Attempt(s, index, length).1;
      |f.inbox| <= |s.inbox| &&
      Unpaced(f.st) == Unpaced(Replay(s.st, s.inbox[..|s.inbox| - |f.inbox|]))
    decreases |s.inbox|
  {
    assert s.inbox[..0] == [];
    if s.st.downloaded < length {
      var (s1, ok) := Fill(s, index, length);
      AttemptRound(s, index, length, s1, ok);
      FillUnpaced(s, index, length);
      if ok && s1.inbox != [] {
        if HandleDelivery(s1.st, s1.inbox[0]).Success? {
          var s2 := Deliver(s1, HandleDelivery(s1.st, s1.inbox[0]).value);
          AttemptReplay(s2, index, length);
          var f := Attempt(s2, index, length).1;
          ReplayFront(s.st, s1.st, s.inbox, |s2.inbox| - |f.inbox|, f.st);
        } else {
          ReplayRejected(s.st, s1.st, s.inbox);
        }
      }
    }
  }

  /** How an attempt ends, read off its reads: it succeeds only with the whole
      piece and then returns the buffer; an error other than a failed write
      means the reads ran out or the last delivery taken was rejected; in
      every case each earlier delivery was accepted. */
  lemma {:induction false} AttemptOutcome(s: Session, index: nat, length: nat)
    requires s.requested <= length
    ensures var (r, f) := Attempt(s, index, length);
      var taken := |s.inbox| - |f.inbox|;
      && (r.Success? ==>
            f.st.downloaded >= length && r.value == f.st.buf
            && forall k :: 0 <= k < taken ==> !Rejected(s.inbox[k]))
      && (r == Failure(WriteFailed) ==> forall k :: 0 <= k < taken ==> !Rejected(s.inbox[k]))
      && (r.Failure? && r.error != WriteFailed ==>
            (f.inbox == [] && r.error == ConnectionError
             && forall k :: 0 <= k < taken ==> !Rejected(s.inbox[k]))
            || (0 < taken && HandleDelivery(f.st, s.inbox[taken - 1]) == Failure(r.error)
                && forall k :: 0 <= k < taken - 1 ==> !Rejected(s.inbox[k])))
    decreases |s.inbox|
  {
    if s.st.downloaded < length {
      var (s1, ok) := Fill(s, index, length);
      AttemptRound(s, index, length, s1, ok);
      if ok && s1.inbox != [] && HandleDelivery(s1.st, s1.inbox[0]).Success? {
        var s2 := Deliver(s1, HandleDelivery(s1.st, s1.inbox[0]).value);
        AttemptOutcome(s2, index, length);
        assert forall k :: 1 <= k < |s.inbox| ==> s.inbox[k] == s2.inbox[k - 1];
      }
    }
  }

  /** How an attempt ends, read off its writes: every write it consumed was
      true, except that when it fails on a write the script ran out or the last
      write consumed was false. */
  lemma {:induction false} AttemptWrites(s: Session, index: nat, length: nat)
    requires s.requested <= length
    ensures var (r, f) := Attempt(s, index, length);
      var used := |s.writes| - |f.writes|;
      && (r != Failure(WriteFailed) ==> AllTrue(s.writes, used))
      && (r == Failure(WriteFailed) ==> Stopped(s.writes, used, f.writes))
    decreases |s.inbox|
  {
    if s.st.downloaded < length {
      var (s1, ok) := Fill(s, index, length);
      AttemptRound(s, index, length, s1, ok);
      FillWrites(s, index, length);
      if ok && s1.inbox != [] && HandleDelivery(s1.st, s1.inbox[0]).Success? {
        var s2 := Deliver(s1, HandleDelivery(s1.st, s1.inbox[0]).value);
        AttemptWrites(s2, index, length);
        var f := Attempt(s2, index, length).1;
        assert Attempt(s, index, length) == Attempt(s2, index, length);
        var skip := |s.writes| - |s2.writes|;
        var used := |s2.writes| - |f.writes|;
        assert s.writes[skip..] == s2.writes;
        WritesThen(s.writes, skip, used, f.writes);
        assert skip + used == |s.writes| - |f.writes|;
      }
    } else {
      assert AllTrue(s.writes, 0);
    }
  }

  // ---------------------------------------------------------------------------
  // The attempt

  /** `pieceProgress`: the state of one attempt at one piece. */
  class PieceProgress {
    const index: nat
    const client: Client
    const buf: array<byte>
    var downloaded: int
    var requested: nat
    var backlog: int

    /** The piece buffer is not the connection's bitfield. */
    ghost predicate Valid()
      reads this, client
    {
      buf as object != client.bitfield as object
    }

    function State(): Snapshot
      reads this, client, client.bitfield, buf
    {
      Snapshot(client.choked, client.bitfield[..], buf[..], downloaded, backlog)
    }

    /** The attempt's state together with the connection's scripts. */
    function Current(): Session
      reads this, client, client.bitfield, buf
    {
      Session(State(), requested, client.inbox, client.writes, client.sent)
    }

    constructor (c: Client, pw: PieceWork)
      ensures index == pw.index && client == c && fresh(buf)
      ensures buf[..] == Zeros(pw.length)
      ensures downloaded == 0 && requested == 0 && backlog == 0
      ensures Valid()
    {
      index := pw.index;
      client := c;
      buf := new byte[pw.length](_ => 0);
      downloaded, requested, backlog := 0, 0, 0;
    }

    /** The request counters of an attempt at a piece of `length` bytes whose
        requests are the connection's writes from position `sent0` on. */
    ghost predicate Pipelined(length: nat, sent0: nat)
      reads this, client
    {
      && 0 <= requested <= length && backlog <= MaxBacklog
      && sent0 <= |client.sent|
      && Tiles(client.sent[sent0..], index, length, 0, requested)
    }

    /** The inner loop of `attemptDownloadPiece`: while the backlog counter is
        below `MaxBacklog` and the piece is not fully requested, ask for
        the next block at offset `requested`. Stops at the first failed write.
        Each request written raises the backlog by one and uses up one true
        scripted write; `ok` is false exactly when the write after those was
        false or the script had run out. */
    method RequestBlocks(length: nat, ghost sent0: nat) returns (ok: bool)
      requires Pipelined(length, sent0) && !client.choked
      modifies this`requested, this`backlog, client`writes, client`sent, client`chokedRequests
      ensures SendRequests(old(Current()), index, length) == (Current(), ok)
      ensures Pipelined(length, sent0)
      ensures old(client.sent) <= client.sent
      ensures backlog - old(backlog) == |client.sent| - |old(client.sent)|
      ensures WritesUsed(old(client.writes), |client.sent| - |old(client.sent)|, client.writes, ok)
      ensures client.chokedRequests == old(client.chokedRequests)
      ensures ok ==> backlog >= MaxBacklog || requested == length
    {
      ghost var s0 := Current();
      ok := true;
      while ok && backlog < MaxBacklog && requested < length
        invariant requested <= length
        invariant SendRequests(s0, index, length)
                  == if ok then SendRequests(Current(), index, length) else (Current(), false)
        invariant client.chokedRequests == old(client.chokedRequests)
        decreases length - requested, if ok then 1 else 0
      {
        var blockSize := MaxBlockSize;
        if length - requested < blockSize {
          blockSize := length - requested;
        }
        assert blockSize == BlockSize(length, requested);
        ghost var cur := Current();
        SendRequestsStep(cur, index, length);
        ok := client.SendRequest(index, requested, blockSize);
        if ok {
          backlog := backlog + 1;
          requested := requested + blockSize;
          assert Current() == Issue(cur, index, length);
        } else {
          assert Current() == cur.(writes := client.writes);
        }
      }
      RequestsMeaning(s0, index, length);
      TilesOnward(s0.sent, client.sent, sent0, index, length, s0.requested, requested);
    }

    /** One pass of the outer loop of `attemptDownloadPiece`: unless choked,
        fill the pipeline, then read one message. It is one step of `Attempt`:
        either the attempt goes on from the new state or it ends here with
        `err`. */
    method Round(length: nat, ghost sent0: nat) returns (err: Option<DownloadError>)
      requires Valid() && Pipelined(length, sent0) && downloaded < length
      modifies this`requested, this`backlog, this`downloaded, client`writes, client`sent,
               client`chokedRequests, client`inbox, client`choked, client.bitfield, buf
      ensures Valid() && Pipelined(length, sent0)
      ensures Attempt(old(Current()), index, length)
              == if err.None? then Attempt(Current(), index, length) else (Failure(err.value), Current())
      ensures err.None? ==> |client.inbox| < old(|client.inbox|)
      ensures client.sent[..sent0] == old(client.sent[..sent0])
      ensures client.chokedRequests == old(client.chokedRequests)
      ensures PiecesGained(old(client.bitfield[..]), client.bitfield[..])
    {
      ghost var s0 := Current();
      var ok := true;
      if !client.choked {
        ok := RequestBlocks(length, sent0);
      }
      ghost var s1 := Current();
      assert Fill(s0, index, length) == (s1, ok);
      if !ok {
        err := Some(WriteFailed);
      } else {
        err := ReadMessage();
      }
      RoundStep(s0, index, length, s1, ok, err, Current());
    }

    /** `(*pieceProgress).readMessage`, corrected: reads one message and
      applies `HandleDelivery` to the state; on an error nothing changes. */
    method ReadMessage() returns (err: Option<DownloadError>)
      requires Valid()
      modifies this`downloaded, this`backlog, client`inbox, client`choked, client.bitfield, buf
      ensures Valid()
      ensures client.inbox == if old(client.inbox) == [] then [] else old(client.inbox[1..])
      ensures err.None? ==> old(client.inbox) != []
      ensures var d := if old(client.inbox) == [] then ReadFailed else old(client.inbox[0]);
              HandleDelivery(old(State()), d)
              == if err.None? then Success(State()) else Failure(err.value)
      ensures err.Some? ==> State() == old(State())
      ensures PiecesGained(old(client.bitfield[..]), client.bitfield[..]) && backlog <= old(backlog)
      ensures (err, Current()) == ReadStep(old(Current()))
    {
      ghost var st := State();
      ghost var delivery := if client.inbox == [] then ReadFailed else client.inbox[0];
      if HandleDelivery(st, delivery).Success? {
        HandleDeliveryKeeps(st, delivery);
      }
      var d := client.Read();
      match d
      case ReadFailed =>
        return Some(ConnectionError);
      case KeepAlive =>
        return None;
      case Received(msg, p) =>
        if msg.id == MsgUnchoke {
          client.choked := false;
        } else if msg.id == MsgChoke {
          client.choked := true;
        } else if msg.id == MsgHave {
          if !p.ok {
            return Some(MalformedHave);
          }
          Bitfield.SetPieceBounded(client.bitfield, p.index);
        } else if msg.id == MsgPiece {
          if !p.ok {
            return Some(MalformedPiece);
          }
          if p.begin <= buf.Length {
            var _ := CopyInto(buf, p.begin, p.block);
          }
          downloaded := downloaded + p.n;
          backlog := backlog - 1;
        }
        return None;
    }
  }

  /** `attemptDownloadPiece`: returns the piece buffer once `downloaded`
      reaches the piece length, or the first error. The requests it sent tile
      the piece from offset 0 without overlap and never exceed the piece, the
      backlog counter never exceeds `MaxBacklog`, and no request went out
      while the peer had us choked. The whole run is the function `Attempt` of the
      connection's scripts. */
  method AttemptDownloadPiece(c: Client, pw: PieceWork)
    returns (r: Result<seq<byte>, DownloadError>, ghost state: PieceProgress)
    modifies c, c.bitfield
    ensures fresh(state) && state.client == c && state.index == pw.index
    ensures state.buf.Length == pw.length
    ensures 0 <= state.requested <= pw.length && state.backlog <= MaxBacklog
    ensures |old(c.sent)| <= |c.sent| && c.sent[..|old(c.sent)|] == old(c.sent)
    ensures Tiles(c.sent[|old(c.sent)|..], pw.index, pw.length, 0, state.requested)
    ensures c.chokedRequests == old(c.chokedRequests)
    ensures c.bitfield == old(c.bitfield) && PiecesGained(old(c.bitfield[..]), c.bitfield[..])
    ensures r.Success? ==> state.downloaded >= pw.length && r.value == state.buf[..]
    ensures r.Success? ==> |r.value| == pw.length
    ensures (r, state.Current()) == Attempt(old(Begin(c, pw)), pw.index, pw.length)
  {
    ghost var start := Begin(c, pw);
    var progress := new PieceProgress(c, pw);
    state := progress;
    ghost var sent0 := |c.sent|;
    while progress.downloaded < pw.length
      invariant fresh(progress) && fresh(progress.buf) && progress.Valid()
      invariant progress.client == c && progress.index == pw.index
      invariant progress.buf.Length == pw.length
      invariant progress.Pipelined(pw.length, sent0)
      invariant Attempt(progress.Current(), pw.index, pw.length) == Attempt(start, pw.index, pw.length)
      invariant c.sent[..sent0] == old(c.sent)
      invariant c.chokedRequests == old(c.chokedRequests)
      invariant c.bitfield == old(c.bitfield) && PiecesGained(old(c.bitfield[..]), c.bitfield[..])
      decreases |c.inbox|
    {
      ghost var bits := c.bitfield[..];
      var err := progress.Round(pw.length, sent0);
      if err.Some? {
        return Failure(err.value), progress;
      }
      PiecesGainedTrans(old(c.bitfield[..]), bits, c.bitfield[..]);
    }
    r := Success(progress.buf[..]);
  }

  lemma PiecesGainedTrans(a: seq<bv8>, b: seq<bv8>, c: seq<bv8>)
    requires PiecesGained(a, b) && PiecesGained(b, c)
    ensures PiecesGained(a, c)
  {
  }
}
