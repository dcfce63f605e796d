/** The connection object the download loop drives (`client.Client`). Its
    package is not part of this model: what it reads and whether its writes
    succeed are given in advance as scripts, so the loop can be driven by any
    sequence of peer behaviour. An exhausted script stands for the per-piece
    deadline expiring, which Go reports as a read or write error. */
module PeerClient {
  import opened Base
  import opened Message

  /** A message this client writes to the peer. */
  datatype Outgoing =
    | Request(index: nat, begin: nat, length: nat)
    | Have(index: nat)

  /** What the not-shown parsers return for a received message:
      `ok` is `err == nil`; `index` is what `message.ParseHave` returns;
      `n` is the count `message.ParsePiece` returns, and `block`, placed at
      `begin`, is what it copies into the piece buffer (only the part that
      lies inside the buffer is written). */
  datatype Parsed = Parsed(ok: bool, index: nat, n: nat, begin: nat, block: seq<byte>)

  /** One outcome of `client.Read`. */
  datatype Delivery =
    | ReadFailed                              // a non-nil error
    | KeepAlive                               // nil message, nil error
    | Received(msg: Message, parsed: Parsed)  // a message

  class Client {
    var choked: bool
    var bitfield: array<bv8>
    /** The reads still to come (`Read` takes the first). */
    var inbox: seq<Delivery>
    /** Whether each coming write succeeds. */
    var writes: seq<bool>
    /** Everything written so far, in order. */
    var sent: seq<Outgoing>
    /** How many requests were written while the peer had us choked. */
    ghost var chokedRequests: nat

    method Read() returns (d: Delivery)
      modifies this`inbox
      ensures old(inbox) == [] ==> d == ReadFailed && inbox == []
      ensures old(inbox) != [] ==> d == old(inbox[0]) && inbox == old(inbox[1..])
    {
      if inbox == [] {
        d := ReadFailed;
      } else {
        d := inbox[0];
        inbox := inbox[1..];
      }
    }

    /** Writes `out` if the connection takes it; `ok` is `err == nil`. */
    method Write(out: Outgoing) returns (ok: bool)
      modifies this`writes, this`sent
      ensures ok == (old(writes) != [] && old(writes[0]))
      ensures writes == if old(writes) == [] then [] else old(writes[1..])
      ensures sent == if ok then old(sent) + [out] else old(sent)
    {
      ok := writes != [] && writes[0];
      if writes != [] {
        writes := writes[1..];
      }
      if ok {
        sent := sent + [out];
      }
    }

    method SendRequest(index: nat, begin: nat, length: nat) returns (ok: bool)
      modifies this`writes, this`sent, this`chokedRequests
      ensures ok == (old(writes) != [] && old(writes[0]))
      ensures writes == if old(writes) == [] then [] else old(writes[1..])
      ensures sent == if ok then old(sent) + [Request(index, begin, length)] else old(sent)
      ensures chokedRequests == old(chokedRequests) + if ok && choked then 1 else 0
    {
      ok := Write(Request(index, begin, length));
      if ok && choked {
        chokedRequests := chokedRequests + 1;
      }
    }

    method SendHave(index: nat) returns (ok: bool)
      modifies this`writes, this`sent
      ensures ok == (old(writes) != [] && old(writes[0]))
      ensures writes == if old(writes) == [] then [] else old(writes[1..])
      ensures sent == if ok then old(sent) + [Have(index)] else old(sent)
    {
      ok := Write(Have(index));
    }
  }
}
