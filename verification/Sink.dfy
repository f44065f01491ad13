/**
  The receiving side of one file: what every delivered block does to the file, the counters and the digest,
  under any pattern of faults of the file system, and the verdict at the end of the session.
 */
module Sink {
  import opened Bytes
  import opened Folding
  import opened Sender

  /** What the file system does with one block. `kept` bounds how much of a block it takes. */
  datatype WriteChoice = Good | CannotOpen | NoEncoding | WriteError(kept: nat) | FlushError | Short(kept: nat)

  datatype Verdict = Incomplete | Verified | Corrupt | Unverified

  /** An incoming JingleFT. `file` is None as long as the output file has not been opened. */
  datatype Sink = Sink(size: nat, state: FtState, transmit: nat, md5: Option<bytes>, hash: Option<string>,
                       file: Option<bytes>)

  function NewSink(size: nat, hash: Option<string>): Sink {
    Sink(size, PENDING, 0, None, hash, None)
  }

  function Written(s: Sink): bytes {
    if s.file.Some? then s.file.value else []
  }

  /** A block the file system takes completely, without an error. */
  predicate FullyWritten(isOpen: bool, data: bytes, w: WriteChoice) {
    match w
    case Good => true
    case CannotOpen => isOpen
    case NoEncoding => isOpen
    case WriteError(_) => false
    case FlushError => false
    case Short(kept) => kept >= |data|
  }

  function HandleBlock(s: Sink, data: bytes, w: WriteChoice): (t: Sink)
    ensures t.transmit == s.transmit + (if FullyWritten(s.file.Some?, data, w) then |data| else 0)
    ensures FullyWritten(s.file.Some?, data, w) ==> t.file == Some(Written(s) + data)
  {
    var d := s.(md5 := Some((if s.md5.Some? then s.md5.value else []) + data));
    if s.file.None? && w.CannotOpen? then d
    else if s.file.None? && w.NoEncoding? then d.(state := STARTING, file := Some([]))
    else
      var o := d.(state := STARTING);
      match w
      case WriteError(kept) => o.(file := Some(Written(s) + data[..Min(kept, |data|)]))
      case FlushError => o.(file := Some(Written(s) + data))
      case Short(kept) =>
        if kept >= |data| then o.(file := Some(Written(s) + data), transmit := s.transmit + |data|)
        else o.(file := Some(Written(s) + data[..kept]))
      case _ => o.(file := Some(Written(s) + data), transmit := s.transmit + |data|)
  }

  /** The counter grows by whole blocks only, and not when a write or the flush reports an error, the file takes too
      little, or it has just been opened and failed to; every other time the file grows by what was taken, which a
      failing write may leave at any part of the block. The digest covers every block. */
  lemma BlockMeans(s: Sink, data: bytes, w: WriteChoice)
    ensures var t := HandleBlock(s, data, w);
            && (data != [] ==>
                  (t.transmit != s.transmit <==>
                     match w
                     case Good => true
                     case Short(kept) => kept >= |data|
                     case CannotOpen => s.file.Some?
                     case NoEncoding => s.file.Some?
                     case _ => false))
            && ((w.Short? || w.WriteError?) && w.kept <= |data| ==> t.file == Some(Written(s) + data[..w.kept]))
            && (w.FlushError? ==> t.file == Some(Written(s) + data))
            && (s.file.None? && w.CannotOpen? ==> t.file == None && t.state == s.state)
            && (s.file.None? && w.NoEncoding? ==> t.file == Some([]))
            && (t.file.Some? ==> t.state == STARTING)
            && t.md5 == Some(if s.md5.Some? then s.md5.value + data else data)
            && t.size == s.size && t.hash == s.hash
  {
    assert [] + data == data == data[..|data|];
  }

  function DigestMatches(hash: string, md5: bytes -> string, fed: bytes): bool {
    SameFoldedPrefix(hash, md5(fed), 32)
  }

  function VerdictOf(s: Sink, md5: bytes -> string): Verdict {
    if s.transmit < s.size then Incomplete
    else if s.hash.None? || s.md5.None? then Unverified
    else if DigestMatches(s.hash.value, md5, s.md5.value) then Verified
    else Corrupt
  }

  /** Two digests differ when one of the first 32 characters does, by more than the case of a letter, or only one of
      them ends before that. */
  ghost predicate Differ(a: string, b: string) {
    || (|a| != |b| && (|a| < 32 || |b| < 32))
    || exists i :: 0 <= i < 32 && i < |a| && i < |b| && !SameLetter(a[i], b[i])
  }

  lemma DigestIff(hash: string, md5: bytes -> string, fed: bytes)
    ensures DigestMatches(hash, md5, fed) <==> !Differ(hash, md5(fed))
    ensures |hash| == |md5(fed)| == 32 ==>
              (DigestMatches(hash, md5, fed) <==> forall i :: 0 <= i < 32 ==> SameLetter(hash[i], md5(fed)[i]))
  {
    hide SameLetter, SameFoldedPrefix;
    SameFoldedPrefixIff(hash, md5(fed), 32);
  }

  /** Each verdict has its own condition: bytes missing, no digest on one side, digests that differ, or none of it. */
  lemma VerdictIff(s: Sink, md5: bytes -> string)
    ensures var v := VerdictOf(s, md5);
            && (v == Incomplete <==> s.transmit < s.size)
            && (v == Unverified <==> s.transmit >= s.size && (s.hash.None? || s.md5.None?))
            && (v == Corrupt <==>
                  && s.transmit >= s.size && s.hash.Some? && s.md5.Some?
                  && Differ(s.hash.value, md5(s.md5.value)))
  {
    hide DigestMatches, Differ;
    if s.hash.Some? && s.md5.Some? {
      DigestIff(s.hash.value, md5, s.md5.value);
    }
  }

  /** A file of one byte whose digest begins differently from the one announced is corrupt, also if only the last
      characters differ; capital letters make no difference. */
  lemma CorruptExample(s: Sink, md5: bytes -> string)
    requires s.size == s.transmit == 1 && s.md5 == Some([1]) && s.hash.Some?
    requires md5([1]) == "55a54008ad1ba589aa210d2629c1df41"
    ensures s.hash.value == "ffffffffffffffffffffffffffffffff" ==> VerdictOf(s, md5) == Corrupt
    ensures s.hash.value == "55a54008ad1ba589aa210d2629c1df42" ==> VerdictOf(s, md5) == Corrupt
    ensures s.hash.value == "55A54008AD1BA589AA210D2629C1DF41" ==> VerdictOf(s, md5) == Verified
  {
    hide VerdictOf;
    VerdictIff(s, md5);
    var digest, hash := md5([1]), s.hash.value;
    assert digest[0] == '5' && digest[31] == '1';
    assert |hash| == 32 && hash[0] == 'f' ==> Differ(hash, digest);
    assert |hash| == 32 && hash[31] == '2' ==> Differ(hash, digest);
  }

  function Stopped(s: Sink): Sink {
    s.(state := if s.transmit < s.size then ERROR else ENDING)
  }

  /** The blocks delivered in order, the k-th one meeting fault `faults(k)`. */
  function Deliver(s: Sink, blocks: seq<bytes>, faults: nat -> WriteChoice): Sink {
    if blocks == [] then s
    else
      var n := |blocks| - 1;
      HandleBlock(Deliver(s, blocks[..n], faults), blocks[n], faults(n))
  }

  lemma DeliverSnoc(s: Sink, prior: seq<bytes>, last: bytes, faults: nat -> WriteChoice)
    ensures Deliver(s, prior + [last], faults) == HandleBlock(Deliver(s, prior, faults), last, faults(|prior|))
  {
    assert (prior + [last])[..|prior|] == prior;
  }

  /** Whether block k was taken completely, given what happened to the blocks before it. */
  predicate Taken(s: Sink, blocks: seq<bytes>, faults: nat -> WriteChoice, k: nat)
    requires k < |blocks|
  {
    FullyWritten(Deliver(s, blocks[..k], faults).file.Some?, blocks[k], faults(k))
  }

  /** Every block that carries bytes was taken completely. */
  ghost predicate AllTaken(s: Sink, blocks: seq<bytes>, faults: nat -> WriteChoice) {
    forall k :: 0 <= k < |blocks| && blocks[k] != [] ==> Taken(s, blocks, faults, k)
  }

  lemma AllTakenSnoc(s: Sink, prior: seq<bytes>, last: bytes, faults: nat -> WriteChoice)
    ensures AllTaken(s, prior + [last], faults) <==>
              AllTaken(s, prior, faults)
              && (last != [] ==> FullyWritten(Deliver(s, prior, faults).file.Some?, last, faults(|prior|)))
  {
    var blocks := prior + [last];
    assert forall k :: 0 <= k < |prior| ==> blocks[..k] == prior[..k] && blocks[k] == prior[k];
    assert blocks[..|prior|] == prior;
    assert forall k :: 0 <= k < |prior| ==> (Taken(s, blocks, faults, k) <==> Taken(s, prior, faults, k));
    assert Taken(s, blocks, faults, |prior|) <==>
      FullyWritten(Deliver(s, prior, faults).file.Some?, last, faults(|prior|));
  }

  /** The books of the receiver: `t` has been given exactly `delivered`, `complete` says if nothing was lost. */
  ghost predicate Books(s: Sink, t: Sink, any: bool, delivered: bytes, complete: bool) {
    && t.size == s.size && t.hash == s.hash
    && t.md5 == (if any then Some(delivered) else None)
    && t.state == (if t.file.Some? then STARTING else s.state)
    && t.transmit <= |Written(t)| <= |delivered|
    && (t.transmit == |delivered| <==> complete)
    && (complete ==> Written(t) == delivered)
  }

  lemma BooksStep(s: Sink, t: Sink, any: bool, delivered: bytes, complete: bool, data: bytes, w: WriteChoice)
    requires Books(s, t, any, delivered, complete) && (!any ==> delivered == [])
    ensures Books(s, HandleBlock(t, data, w), true, delivered + data,
                  complete && (data != [] ==> FullyWritten(t.file.Some?, data, w)))
  {
    assert delivered + [] == delivered;
  }

  /** The digest covers every block, written or not. The counter never exceeds what is in the file, nor that what
      was delivered; it reaches it exactly when no block was lost, and then the file holds all of them. */
  lemma {:induction false} Accounting(s: Sink, blocks: seq<bytes>, faults: nat -> WriteChoice)
    requires s.transmit == 0 && s.md5.None? && s.file.None?
    ensures Books(s, Deliver(s, blocks, faults), blocks != [], Join(blocks), AllTaken(s, blocks, faults))
  {
    if blocks == [] {
    } else {
      var prior, last := blocks[..|blocks| - 1], blocks[|blocks| - 1];
      Accounting(s, prior, faults);
      assert blocks == prior + [last];
      JoinSnoc(prior, last);
      AllTakenSnoc(s, prior, last, faults);
      BooksStep(s, Deliver(s, prior, faults), prior != [], Join(prior), AllTaken(s, prior, faults), last,
                faults(|prior|));
    }
  }

  /** When the delivered bytes total the announced size, the transfer ends well exactly when every block was
      written, and then the file is what was delivered. */
  lemma StopAfterAll(s: Sink, blocks: seq<bytes>, faults: nat -> WriteChoice)
    requires s.transmit == 0 && s.md5.None? && s.file.None?
    requires |Join(blocks)| == s.size
    ensures var t := Stopped(Deliver(s, blocks, faults));
            && t.state == (if AllTaken(s, blocks, faults) then ENDING else ERROR)
            && (t.state == ENDING ==> Written(t) == Join(blocks) && t.transmit == s.size)
  {
    Accounting(s, blocks, faults);
  }

  /** The incoming JingleFT and its output channel. */
  class IncomingFile {
    const size: nat
    var state: FtState
    var transmit: nat
    var md5: Option<bytes>
    var hash: Option<string>
    var outfile: Option<bytes>

    constructor (size: nat, hash: Option<string>)
      ensures View() == NewSink(size, hash)
    {
      this.size, this.hash := size, hash;
      state, transmit, md5, outfile := PENDING, 0, None, None;
    }

    function View(): Sink
      reads this
    {
      Sink(size, state, transmit, md5, hash, outfile)
    }

    method HandleData(data: bytes, w: WriteChoice) returns (ok: bool)
      modifies this
      ensures View() == HandleBlock(old(View()), data, w)
      ensures ok <==> FullyWritten(old(outfile).Some?, data, w)
    {
      if md5.None? {
        md5 := Some([]);
      }
      md5 := Some(md5.value + data);
      if outfile.None? {
        if w.CannotOpen? {
          return false;
        }
        outfile := Some([]);
        state := STARTING;
        if w.NoEncoding? {
          return false;
        }
      }
      state := STARTING;
      var written := |data|;
      if w.WriteError? || w.Short? {
        written := Min(w.kept, |data|);
      }
      assert data[..|data|] == data;
      outfile := Some(outfile.value + data[..written]);
      if w.WriteError? || w.FlushError? || written != |data| {
        return false;
      }
      transmit := transmit + |data|;
      return true;
    }

    method Stop(digest: bytes -> string) returns (verdict: Verdict)
      modifies this`state
      ensures View() == Stopped(old(View()))
      ensures verdict == VerdictOf(old(View()), digest)
      ensures verdict == Corrupt <==>
                && transmit >= size && hash.Some? && md5.Some? && Differ(hash.value, digest(md5.value))
    {
      VerdictIff(View(), digest);
      if transmit < size {
        state := ERROR;
        return Incomplete;
      }
      state := ENDING;
      if hash.Some? && md5.Some? {
        return if DigestMatches(hash.value, digest, md5.value) then Verified else Corrupt;
      }
      return Unverified;
    }
  }
}
