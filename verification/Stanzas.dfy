/** What the two parties of a transfer put on the XML stream. */
module Stanzas {
  import opened Bytes

  datatype Stanza =
    | Data(sid: string, seqno: nat, payload: bytes)   // <data/> of an In-Band Bytestream
    | HashInfo(hash: string)                          // session-info carrying the digest of the file
    | Terminate                                       // session-terminate, reason "success"

  datatype Reply =
    | DataAck           // the IQ result of a <data/>: the only reply the sender has a callback for
    | Ack
    | UnknownSession    // item-not-found
    | UnsupportedInfo   // feature-not-implemented

  /** The payloads of the data stanzas, in order. */
  function Payloads(out: seq<Stanza>): seq<bytes> {
    if out == [] then []
    else (if out[0].Data? then [out[0].payload] else []) + Payloads(out[1..])
  }

  lemma {:induction false} PayloadsAppend(a: seq<Stanza>, b: seq<Stanza>)
    ensures Payloads(a + b) == Payloads(a) + Payloads(b)
  {
    if a == [] {
      assert a + b == b;
    } else {
      assert (a + b)[1..] == a[1..] + b;
      PayloadsAppend(a[1..], b);
    }
  }

  predicate AllData(out: seq<Stanza>) {
    forall i :: 0 <= i < |out| ==> out[i].Data?
  }

  lemma {:induction false} PayloadsOfData(out: seq<Stanza>)
    requires AllData(out)
    ensures |Payloads(out)| == |out|
    ensures forall i :: 0 <= i < |out| ==> Payloads(out)[i] == out[i].payload
  {
    if out == [] {
    } else {
      PayloadsOfData(out[1..]);
    }
  }

  lemma {:induction false} PayloadsOfOthers(out: seq<Stanza>)
    requires forall i :: 0 <= i < |out| ==> !out[i].Data?
    ensures Payloads(out) == []
  {
    if out == [] {
    } else {
      PayloadsOfOthers(out[1..]);
    }
  }
}
