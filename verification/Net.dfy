/**
 The socket as the program sees it: a stream of bytes the server has sent, handed
 out in pieces whose sizes the network chooses.
 */
module Net {
  const MAX_DOC_LENGTH: nat := 8192

  datatype ReadStatus = Success | Eof | TimeUp | General

  type Failure = s: ReadStatus | s != Success witness Eof

  /** How many of `left` bytes a read asking for `max` gets when the network offers `cut`. */
  function Arrives(cut: (nat, nat) -> nat, left: nat, max: nat): (n: nat)
    ensures n <= left && n <= max
    ensures left > 0 && max > 0 ==> n >= 1
  {
    var most := if left < max then left else max;
    var offered := cut(left, max);
    if offered > most then most else if offered == 0 && most > 0 then 1 else offered
  }

  /** What a buffer of MAX_DOC_LENGTH bytes holds before anything is read into it. */
  type Memory = s: string | |s| == MAX_DOC_LENGTH witness seq(MAX_DOC_LENGTH, _ => '\0')

  /** A buffer after a read into it. */
  function Into(b: Memory, bytes: string): Memory
    requires |bytes| < MAX_DOC_LENGTH
  {
    bytes + b[|bytes|..]
  }

  /** The length a failing read leaves in *buflen: 0 if it was reset, up to the bytes asked for if not. */
  function Residue(residue: nat -> nat, max: nat): (n: nat)
    ensures n <= max
  {
    if residue(max) > max then max else residue(max)
  }

  class Socket {
    var incoming: string         // sent by the server, not read yet
    var cut: (nat, nat) -> nat   // the network: bytes offered to a read, by bytes left and bytes asked for
    var stalls: nat              // reads issued with nothing left to read
    const ending: Failure        // what such a read reports
    const residue: nat -> nat    // and the length it reports with it, by bytes asked for

    constructor (ending: Failure, residue: nat -> nat)
      ensures incoming == [] && stalls == 0 && this.ending == ending && this.residue == residue
    {
      this.ending, this.residue := ending, residue;
      incoming, stalls, cut := [], 0, (left, max) => max;
    }

    /** The server sends a response; the network will segment it as `how` says. */
    method Deliver(bytes: string, how: (nat, nat) -> nat)
      modifies this`incoming, this`cut
      ensures incoming == old(incoming) + bytes && cut == how
    {
      incoming, cut := incoming + bytes, how;
    }

    /** read_socket: the status, the bytes put into the buffer, and the length reported. */
    method Read(max: nat) returns (status: ReadStatus, bytes: string, len: nat)
      modifies this`incoming, this`stalls
      ensures old(incoming) == [] ==>
        && status == ending && bytes == [] && len == Residue(residue, max)
        && incoming == [] && stalls == old(stalls) + 1
      ensures old(incoming) != [] ==>
        && status == Success && stalls == old(stalls)
        && len == |bytes| == Arrives(cut, |old(incoming)|, max)
      ensures old(incoming) == bytes + incoming
    {
      if incoming == [] {
        stalls := stalls + 1;
        return ending, [], Residue(residue, max);
      }
      var n := Arrives(cut, |incoming|, max);
      status, bytes, len := Success, incoming[..n], n;
      incoming := incoming[n..];
    }
  }
}
