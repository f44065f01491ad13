/**
  One In-Band Bytestream: the negotiation of its block size and the buffer that cuts what the application
  hands over into blocks of that size.
 */
module Ibb {
  import opened Bytes

  const BLOCK_SIZE_MAX := 4096

  /** The value g_ascii_strtoll gives, stored in a 32-bit unsigned field, clamped, and then tested for being
      negative; None stands for the error of a bad value. */
  function OfferedBlockSize(parsed: int): Option<int> {
    var stored: int := parsed % 0x1_0000_0000;
    var clamped: int := if stored > BLOCK_SIZE_MAX then BLOCK_SIZE_MAX else stored;
    if clamped < 0 then None else Some(clamped)
  }

  /** newfrommessage: both attributes must be there. */
  function NewFromMessage(sid: Option<string>, blocksize: Option<int>): Option<(string, int)> {
    if sid.None? || blocksize.None? then None
    else
      var size := OfferedBlockSize(blocksize.value);
      if size.None? then None else Some((sid.value, size.value))
  }

  /** The test for negative sizes never fires, whatever was parsed: the field has no sign. What is stored is the
      value modulo 2^32, or 4096 exactly when that is not less; it is zero for every multiple of 2^32. */
  lemma OfferIsNeverRefused(parsed: int)
    ensures OfferedBlockSize(parsed).Some?
    ensures OfferedBlockSize(parsed) == Some(4096) <==> parsed % 0x1_0000_0000 >= 4096
    ensures forall b: nat :: b < 4096 ==> (OfferedBlockSize(parsed) == Some(b) <==> parsed % 0x1_0000_0000 == b)
  {
  }

  /** So a transport element is refused exactly when an attribute is missing. */
  lemma RefusedIffMissing(sid: Option<string>, blocksize: Option<int>)
    ensures NewFromMessage(sid, blocksize).None? <==> sid.None? || blocksize.None?
    ensures sid.Some? && blocksize.Some? ==>
              var (i, b) := NewFromMessage(sid, blocksize).value;
              i == sid.value && (0 <= blocksize.value <= 4096 ==> b == blocksize.value)
  {
    if blocksize.Some? {
      OfferIsNeverRefused(blocksize.value);
    }
  }

  /** Negative offers the check was written for: one becomes the largest block size, the other none at all. */
  lemma NegativeOfferExamples()
    ensures OfferedBlockSize(-1) == Some(4096)
    ensures OfferedBlockSize(-0x1_0000_0000) == Some(0)
  {
    assert -1 % 0x1_0000_0000 == 0xFFFF_FFFF;
    assert -0x1_0000_0000 % 0x1_0000_0000 == 0;
  }

  /** A session-accept can only lower the block size; it is compared as a 64-bit unsigned number. */
  function AcceptedBlockSize(current: nat, parsed: int): (size: nat)
    ensures size <= current
  {
    var asked := parsed % 0x1_0000_0000_0000_0000;
    if asked < current then asked else current
  }

  /** A size that is smaller is taken as it is, any other makes no difference. */
  lemma AcceptTakesTheSmaller(current: nat, parsed: int)
    requires 0 <= parsed < 0x8000_0000_0000_0000
    ensures parsed <= current ==> AcceptedBlockSize(current, parsed) == parsed
    ensures parsed >= current ==> AcceptedBlockSize(current, parsed) == current
  {
    assert parsed % 0x1_0000_0000_0000_0000 == parsed;
  }

  /** A negative answer in the accept leaves the block size as it was. */
  lemma NegativeAcceptIsIgnored(current: nat, parsed: int)
    requires current <= 4096 && -0x8000_0000_0000_0000 <= parsed < 0
    ensures AcceptedBlockSize(current, parsed) == current
  {
    assert parsed % 0x1_0000_0000_0000_0000 == parsed + 0x1_0000_0000_0000_0000;
  }

  /** Once the responder's size has come back in the accept, both sides cut blocks of the same size. */
  lemma NegotiationAgrees(offered: nat)
    requires offered < 0x1_0000_0000
    ensures var responder := OfferedBlockSize(offered);
            && responder == Some(Min(offered, 4096))
            && AcceptedBlockSize(offered, responder.value) == responder.value
  {
    assert offered % 0x1_0000_0000 == offered;
    var responder := Min(offered, BLOCK_SIZE_MAX);
    assert responder % 0x1_0000_0000_0000_0000 == responder;
  }

  class JingleIBB {
    var blocksize: nat
    const sid: string
    var buf: array<byte>
    var sizeBuf: nat
    var dataleft: nat
    var seqno: nat
    var freed: bool   // buf has been given back to the allocator

    /** The struct made by `new`: zeroed, with the largest block size and a fresh identifier. */
    constructor (sid: string)
      ensures Valid() && !freed && fresh(buf)
      ensures Queue() == [] && sizeBuf == 0 && seqno == 0
      ensures blocksize == 4096 && this.sid == sid
    {
      this.sid := sid;
      blocksize, sizeBuf, dataleft, seqno, freed := BLOCK_SIZE_MAX, 0, 0, 0, false;
      buf := new byte[0];
    }

    /** The bytestream of an offer; null when the transport element is refused. */
    static method FromMessage(sid: Option<string>, blocksize: Option<int>) returns (ibb: JingleIBB?)
      ensures ibb == null <==> NewFromMessage(sid, blocksize).None?
      ensures ibb != null ==> fresh(ibb) && ibb.Valid() && !ibb.freed
                              && NewFromMessage(sid, blocksize) == Some((ibb.sid, ibb.blocksize))
    {
      if sid.None? || blocksize.None? {
        return null;
      }
      ibb := new JingleIBB(sid.value);
      ibb.blocksize := blocksize.value % 0x1_0000_0000;
      if ibb.blocksize > BLOCK_SIZE_MAX {
        ibb.blocksize := BLOCK_SIZE_MAX;
      }
      if ibb.blocksize < 0 {
        return null;
      }
    }

    ghost predicate Valid()
      reads this
    {
      !freed ==> buf.Length == sizeBuf && dataleft <= sizeBuf
    }

    /** The bytes taken over from the application and not sent yet. */
    ghost function Queue(): bytes
      reads this, buf
      requires Valid()
    {
      if freed then [] else buf[..dataleft]
    }

    method HandleAccept(parsed: int)
      requires Valid()
      modifies this`blocksize
      ensures blocksize == AcceptedBlockSize(old(blocksize), parsed)
    {
      var asked := parsed % 0x1_0000_0000_0000_0000;
      blocksize := if asked < blocksize then asked else blocksize;
    }

    /** Adds at the end of the queue, in the free part of the buffer or in a grown one. */
    method Append(src: bytes)
      requires Valid() && !freed
      modifies this`buf, this`sizeBuf, this`dataleft, buf
      ensures Valid()
      ensures Queue() == old(Queue()) + src
      ensures sizeBuf == Max(old(sizeBuf), old(dataleft) + |src|)
      ensures buf == old(buf) || fresh(buf)
    {
      if sizeBuf >= |src| + dataleft {
        forall i | 0 <= i < |src| {
          buf[dataleft + i] := src[i];
        }
        dataleft := dataleft + |src|;
      } else {
        sizeBuf := |src| + dataleft;
        var grown := new byte[sizeBuf];
        forall i | 0 <= i < dataleft {
          grown[i] := buf[i];
        }
        forall i | 0 <= i < |src| {
          grown[dataleft + i] := src[i];
        }
        buf := grown;
        dataleft := sizeBuf;
      }
    }

    /** Takes one block from the front of the queue and shifts the rest down, over itself. */
    method TakeBlock() returns (block: bytes)
      requires Valid() && !freed && blocksize <= dataleft
      modifies this`dataleft, buf
      ensures Valid()
      ensures block == old(Queue())[..blocksize]
      ensures Queue() == old(Queue())[blocksize..]
    {
      block := buf[..blocksize];
      dataleft := dataleft - blocksize;
      forall i | 0 <= i < dataleft {
        buf[i] := buf[i + blocksize];
      }
    }

    /** What is left, at the end of the transfer; the buffer is given back. */
    method TakeRest() returns (rest: bytes)
      requires Valid() && !freed
      modifies this`freed
      ensures Valid() && freed
      ensures rest == old(Queue())
    {
      rest := buf[..dataleft];
      freed := true;
    }
  }
}
