/**
 * The session queue: the state a `start` request creates, and the `sync`
 * and `stop` requests that admit inbound batches in sequence order and hand
 * out pages of outbound messages.
 */
module SessionQueue {
  import opened Php
  import opened Protocol

  /** At most this many outbound messages go into one response. */
  const PAGE_SIZE: nat := 64

  type Buffer = map<int, seq<Message>>

  /** The answer to a `sync` request: `{"cmd":"error"}`, or a page tagged with a sequence number. */
  datatype SyncResponse = SyncError | Page(number: int, msgs: seq<Message>)

  /**
   * What draining the reassembly buffer from key `i` yields: the batches
   * admitted, the first key found absent, and what stays buffered.
   */
  datatype Drained = Drained(admitted: seq<Message>, next: int, rest: Buffer)

  /** The drain loop of a `sync` request, as a function of the buffer and the starting key. */
  function Drain(buffer: Buffer, i: int): Drained
    decreases |buffer|
  {
    if i in buffer then
      assert (buffer - {i}).Keys == buffer.Keys - {i};
      var d := Drain(buffer - {i}, i + 1);
      Drained(buffer[i] + d.admitted, d.next, d.rest)
    else
      Drained([], i, buffer)
  }

  /** The batches under keys lo, lo + 1, ..., hi - 1, concatenated in key order. */
  function Batches(buffer: Buffer, lo: int, hi: int): seq<Message>
    requires forall k :: lo <= k < hi ==> k in buffer
    decreases hi - lo
  {
    if lo >= hi then [] else buffer[lo] + Batches(buffer, lo + 1, hi)
  }

  lemma {:induction false} BatchesAgree(b1: Buffer, b2: Buffer, lo: int, hi: int)
    requires forall k :: lo <= k < hi ==> k in b1 && k in b2 && b1[k] == b2[k]
    ensures Batches(b1, lo, hi) == Batches(b2, lo, hi)
    decreases hi - lo
  {
    if lo < hi {
      BatchesAgree(b1, b2, lo + 1, hi);
    }
  }

  /**
   * Draining from key i admits the consecutive run of buffered batches
   * i, i + 1, ... in key order, stops at the first absent key, and removes
   * exactly the drained keys, leaving every other entry as it was.
   */
  lemma {:induction false} DrainSpec(buffer: Buffer, i: int)
    ensures var d := Drain(buffer, i);
      && i <= d.next
      && (forall k :: i <= k < d.next ==> k in buffer)
      && d.next !in buffer
      && d.admitted == Batches(buffer, i, d.next)
      && (forall k :: k in d.rest <==> k in buffer && !(i <= k < d.next))
      && (forall k :: k in d.rest ==> d.rest[k] == buffer[k])
    decreases |buffer|
  {
    if i in buffer {
      var b' := buffer - {i};
      assert b'.Keys == buffer.Keys - {i};
      DrainSpec(b', i + 1);
      var d' := Drain(b', i + 1);
      assert Drain(buffer, i) == Drained(buffer[i] + d'.admitted, d'.next, d'.rest);
      forall k | i + 1 <= k < d'.next
        ensures k in b' && k in buffer && b'[k] == buffer[k]
      {
      }
      BatchesAgree(b', buffer, i + 1, d'.next);
      assert Batches(buffer, i, d'.next) == buffer[i] + Batches(buffer, i + 1, d'.next);
    }
  }

  /** One round of the drain loop. */
  lemma DrainStep(buffer: Buffer, i: int)
    requires i in buffer
    ensures var d := Drain(buffer - {i}, i + 1);
      Drain(buffer, i) == Drained(buffer[i] + d.admitted, d.next, d.rest)
  {
  }

  /** If nothing buffered is below i, everything left after draining from i lies past the new next key. */
  lemma DrainLeavesLaterKeys(buffer: Buffer, i: int)
    requires forall k :: k in buffer ==> k >= i
    ensures var d := Drain(buffer, i); forall k :: k in d.rest ==> k > d.next
  {
    DrainSpec(buffer, i);
  }

  /** How many messages one response takes off a queue of n. */
  function PageLength(n: nat): nat
  {
    if n < PAGE_SIZE then n else PAGE_SIZE
  }

  /** The pages that successive responses hand out when nothing is added in between. */
  function Pages(q: seq<Message>): seq<seq<Message>>
    decreases |q|
  {
    if q == [] then [] else [q[..PageLength(|q|)]] + Pages(q[PageLength(|q|)..])
  }

  function Flatten(pages: seq<seq<Message>>): seq<Message>
  {
    if pages == [] then [] else pages[0] + Flatten(pages[1..])
  }

  /**
   * Pagination loses, duplicates and reorders nothing: the pages concatenate
   * back to the queue, there are ceil(|q| / 64) of them, each holds between
   * 1 and 64 messages, and all but the last are full.
   */
  lemma {:induction false} PagesPartitionQueue(q: seq<Message>)
    ensures Flatten(Pages(q)) == q
    ensures |Pages(q)| == (|q| + PAGE_SIZE - 1) / PAGE_SIZE
    ensures forall i :: 0 <= i < |Pages(q)| ==> 0 < |Pages(q)[i]| <= PAGE_SIZE
    ensures forall i :: 0 <= i < |Pages(q)| - 1 ==> |Pages(q)[i]| == PAGE_SIZE
    decreases |q|
  {
    if q != [] {
      var n := PageLength(|q|);
      var rest := q[n..];
      PagesPartitionQueue(rest);
      var ps := Pages(q);
      assert ps == [q[..n]] + Pages(rest);
      assert ps[1..] == Pages(rest);
      assert q[..n] + rest == q;
      assert forall i :: 1 <= i < |ps| ==> ps[i] == Pages(rest)[i - 1];
      if |q| > PAGE_SIZE {
        assert |rest| == |q| - PAGE_SIZE;
      } else {
        assert rest == [];
      }
    }
  }

  /** 130 queued messages leave in three responses of 64, 64 and 2. */
  lemma PagesOf130Messages(q: seq<Message>)
    requires |q| == 130
    ensures |Pages(q)| == 3
    ensures |Pages(q)[0]| == 64 && |Pages(q)[1]| == 64 && |Pages(q)[2]| == 2
  {
    PagesPartitionQueue(q);
    assert |Flatten(Pages(q))| == 130;
    var ps := Pages(q);
    assert ps[3..] == [];
    assert Flatten(ps[2..]) == ps[2] + Flatten(ps[3..]);
    assert Flatten(ps[1..]) == ps[1] + Flatten(ps[2..]);
    assert Flatten(ps) == ps[0] + Flatten(ps[1..]);
  }

  /** Batches over [lo, hi) are those over [lo, mid) followed by those over [mid, hi). */
  lemma {:induction false} BatchesSplit(m: Buffer, lo: int, mid: int, hi: int)
    requires lo <= mid <= hi
    requires forall k :: lo <= k < hi ==> k in m
    ensures Batches(m, lo, hi) == Batches(m, lo, mid) + Batches(m, mid, hi)
    decreases mid - lo
  {
    if lo < mid {
      BatchesSplit(m, lo + 1, mid, hi);
    }
  }

  /**
   * The bookkeeping behind ordered, exactly-once admission: `accepted` holds
   * every batch the session took under a number it did not refuse (a parked
   * batch replaced by a later one with the same number counts once, with its
   * last payload); every number below `next` is accepted, the others are
   * exactly the buffered ones, and everything admitted so far is the accepted
   * batches 0, 1, ..., next - 1 in that order.
   */
  ghost predicate Ledger(accepted: Buffer, buffer: Buffer, next: int, admitted: seq<Message>)
  {
    && 0 <= next
    && (forall k :: k in buffer ==> k > next)
    && (forall k :: k in accepted <==> 0 <= k < next || k in buffer)
    && (forall k :: k in buffer ==> buffer[k] == accepted[k])
    && admitted == Batches(accepted, 0, next)
  }

  /**
   * Admitting the expected batch and draining the buffer after it keeps the
   * ledger: the admitted messages grow by that batch and the drained ones.
   */
  lemma AdmitKeepsLedger(accepted: Buffer, buffer: Buffer, next: int, admitted: seq<Message>, msgs: seq<Message>)
    requires Ledger(accepted, buffer, next, admitted)
    ensures var d := Drain(buffer, next + 1);
      Ledger(accepted[next := msgs], d.rest, d.next, admitted + msgs + d.admitted)
  {
    var a := accepted[next := msgs];
    var d := Drain(buffer, next + 1);
    DrainSpec(buffer, next + 1);
    DrainLeavesLaterKeys(buffer, next + 1);
    forall k | 0 <= k < next ensures k in accepted && k in a && accepted[k] == a[k] {
    }
    BatchesAgree(accepted, a, 0, next);
    forall k | next + 1 <= k < d.next ensures k in buffer && k in a && buffer[k] == a[k] {
    }
    BatchesAgree(buffer, a, next + 1, d.next);
    BatchesSplit(a, 0, next, d.next);
    assert Batches(a, next, d.next) == msgs + Batches(a, next + 1, d.next);
  }

  /** Parking a batch ahead of the expected number keeps the ledger and admits nothing. */
  lemma ParkKeepsLedger(accepted: Buffer, buffer: Buffer, next: int, admitted: seq<Message>,
                        seqNo: int, msgs: seq<Message>)
    requires Ledger(accepted, buffer, next, admitted) && seqNo > next
    ensures Ledger(accepted[seqNo := msgs], buffer[seqNo := msgs], next, admitted)
  {
    var a := accepted[seqNo := msgs];
    forall k | 0 <= k < next ensures k in accepted && k in a && accepted[k] == a[k] {
    }
    BatchesAgree(accepted, a, 0, next);
  }

  /**
   * The session store for one client. `running` is absent (None) until
   * `start`; `initialised` stands for the presence of the counters, queues
   * and buffer that `start` creates together.
   */
  class Session {
    var running: Option<bool>
    var initialised: bool
    var iSeq: int
    var oSeq: int
    var buffer: Buffer
    var incoming: seq<Message>
    var outgoing: seq<Message>
    var control: int

    /** The inbound messages the engine has already collected from `incoming`. */
    ghost var taken: seq<Message>

    /** Every batch accepted under a number that was not refused, by number. */
    ghost var accepted: Buffer

    /**
     * Every buffered batch is still ahead of the next expected sequence
     * number, and the inbound messages, collected or still queued, are the
     * accepted batches in sequence order, each exactly once.
     */
    ghost predicate Valid()
      reads this
    {
      initialised ==> 0 <= oSeq && Ledger(accepted, buffer, iSeq, taken + incoming)
    }

    /** A session in which no request has set anything yet. */
    constructor ()
      ensures running == None && !initialised && Valid()
    {
      running := None;
      initialised := false;
      iSeq, oSeq := 0, 0;
      buffer := map[];
      incoming, outgoing := [], [];
      control := 0;
      taken, accepted := [], map[];
    }

    /**
     * The `start` request: initialise the session unless `running` is set.
     * Returns whether the request goes on to run the tunnel engine.
     */
    method Start() returns (launched: bool)
      requires Valid()
      modifies this
      ensures Valid()
      ensures launched <==> old(running) == None
      ensures launched ==> && running == Some(true) && initialised
                           && iSeq == 0 && oSeq == 0 && buffer == map[]
                           && incoming == [] && outgoing == [] && control == 0
                           && taken == [] && accepted == map[]
      ensures !launched ==> unchanged(this)
    {
      launched := running == None;
      if launched {
        running := Some(true);
        initialised := true;
        iSeq, oSeq := 0, 0;
        buffer := map[];
        outgoing, incoming := [], [];
        control := 0;
        taken, accepted := [], map[];
      }
    }

    /** The `stop` request: clear `running`; the engine sees it at its next exchange. */
    method Stop()
      modifies this`running
      ensures running == Some(false)
    {
      running := Some(false);
    }

    /**
     * The store's side of one engine exchange: hand over the inbound queue,
     * append the engine's outbound messages, and count one more iteration.
     */
    method Trade(out: seq<Message>) returns (inbound: seq<Message>)
      requires Valid()
      modifies this`incoming, this`outgoing, this`control, this`taken
      ensures Valid()
      ensures inbound == old(incoming) && incoming == [] && taken == old(taken) + old(incoming)
      ensures outgoing == old(outgoing) + out && control == old(control) + 1
    {
      inbound := incoming;
      taken := taken + incoming;
      incoming := [];
      assert taken + incoming == old(taken + incoming);
      outgoing := outgoing + out;
      control := control + 1;
    }

    /**
     * Admitting the batch under the expected number: append it, then keep
     * appending buffered batches while the next number is buffered.
     */
    method Admit(seqNo: int, msgs: seq<Message>)
      requires initialised && Valid() && seqNo == iSeq
      modifies this`incoming, this`iSeq, this`buffer, this`accepted
      ensures Valid()
      ensures var d := Drain(old(buffer), seqNo + 1);
        incoming == old(incoming) + msgs + d.admitted && iSeq == d.next && buffer == d.rest
      ensures accepted == old(accepted)[seqNo := msgs]
    {
      AdmitKeepsLedger(accepted, buffer, iSeq, taken + incoming, msgs);
      accepted := accepted[seqNo := msgs];
      incoming := incoming + msgs;
      iSeq := iSeq + 1;
      DrainBuffer();
      assert taken + incoming == old(taken + incoming) + msgs + Drain(old(buffer), seqNo + 1).admitted;
    }

    /** The drain loop: move buffered batches to `incoming` while the expected number is buffered. */
    method DrainBuffer()
      modifies this`incoming, this`iSeq, this`buffer
      ensures var d := Drain(old(buffer), old(iSeq));
        incoming == old(incoming) + d.admitted && iSeq == d.next && buffer == d.rest
    {
      ghost var start, i0 := buffer, iSeq;
      while iSeq in buffer
        invariant Drain(buffer, iSeq).next == Drain(start, i0).next
        invariant Drain(buffer, iSeq).rest == Drain(start, i0).rest
        invariant incoming + Drain(buffer, iSeq).admitted == old(incoming) + Drain(start, i0).admitted
        decreases |buffer|
      {
        assert (buffer - {iSeq}).Keys == buffer.Keys - {iSeq};
        DrainStep(buffer, iSeq);
        incoming := incoming + buffer[iSeq];
        buffer := buffer - {iSeq};
        iSeq := iSeq + 1;
      }
      assert Drain(buffer, iSeq) == Drained([], iSeq, buffer);
    }

    /**
     * The `sync` request carrying batch `msgs` under sequence number `seqNo`
     * (the request's `seq`). A stale or repeated number is refused with
     * nothing changed. The expected number is admitted together with every
     * buffered batch that directly follows it; a later one is parked in the
     * buffer, replacing any batch parked under the same number. Either way
     * the response takes the next page off the outbound queue.
     */
    method Sync(seqNo: int, msgs: seq<Message>) returns (resp: SyncResponse)
      requires initialised && Valid()
      modifies this
      ensures Valid()
      ensures seqNo < old(iSeq) ==> resp == SyncError && unchanged(this)
      ensures seqNo == old(iSeq) ==>
        var d := Drain(old(buffer), seqNo + 1);
        incoming == old(incoming) + msgs + d.admitted && iSeq == d.next && buffer == d.rest
      ensures seqNo == old(iSeq) ==>
        && seqNo < iSeq
        && (forall k :: seqNo < k < iSeq ==> k in old(buffer))
        && iSeq !in old(buffer) && iSeq !in buffer
        && incoming == old(incoming) + msgs + Batches(old(buffer), seqNo + 1, iSeq)
        && (forall k :: k in buffer <==> k in old(buffer) && !(seqNo < k < iSeq))
        && (forall k :: k in buffer ==> buffer[k] == old(buffer)[k])
      ensures seqNo > old(iSeq) ==>
        buffer == old(buffer)[seqNo := msgs] && iSeq == old(iSeq) && incoming == old(incoming)
      ensures seqNo >= old(iSeq) ==> accepted == old(accepted)[seqNo := msgs]
      ensures taken == old(taken) && taken + incoming == Batches(accepted, 0, iSeq)
      ensures seqNo >= old(iSeq) ==>
        var n := PageLength(|old(outgoing)|);
        && resp == Page(old(oSeq), old(outgoing)[..n])
        && outgoing == old(outgoing)[n..]
        && oSeq == old(oSeq) + 1
      ensures iSeq >= old(iSeq) && oSeq >= old(oSeq)
      ensures running == old(running) && initialised && control == old(control)
    {
      if seqNo == iSeq {
        Admit(seqNo, msgs);
        DrainSpec(old(buffer), seqNo + 1);
      } else if seqNo > iSeq {
        ParkKeepsLedger(accepted, buffer, iSeq, taken + incoming, seqNo, msgs);
        buffer := buffer[seqNo := msgs];
        accepted := accepted[seqNo := msgs];
      } else {
        resp := SyncError;
        return;
      }
      var n := PageLength(|outgoing|);
      resp := Page(oSeq, outgoing[..n]);
      outgoing := outgoing[n..];
      oSeq := oSeq + 1;
    }
  }

  /**
   * Batches 2 and 1 arriving in that order after batch 0 are admitted as
   * batch 0, batch 1, batch 2, and the next expected number is 3.
   */
  method ReorderedArrival(b0: seq<Message>, b1: seq<Message>, b2: seq<Message>)
    returns (admitted: seq<Message>, next: int)
    ensures admitted == b0 + b1 + b2 && next == 3
  {
    var s := new Session();
    var launched := s.Start();
    var r0 := s.Sync(0, b0);
    var r2 := s.Sync(2, b2);
    var r1 := s.Sync(1, b1);
    admitted, next := s.incoming, s.iSeq;
  }

  /** Replaying an admitted sequence number is refused and admits nothing. */
  method ReplayRefused(b: seq<Message>, replay: seq<Message>)
    returns (resp: SyncResponse, admitted: seq<Message>, next: int)
    ensures resp == SyncError && admitted == b && next == 1
  {
    var s := new Session();
    var launched := s.Start();
    var r0 := s.Sync(0, b);
    resp := s.Sync(0, replay);
    admitted, next := s.incoming, s.iSeq;
  }

  /** Taking one page off a queue leaves the queue whose pages are the remaining ones. */
  lemma PagesStep(q: seq<Message>)
    requires q != []
    ensures var n := PageLength(|q|);
      Pages(q)[0] == q[..n] && Pages(q)[1..] == Pages(q[n..])
  {
    var n := PageLength(|q|);
    assert Pages(q) == [q[..n]] + Pages(q[n..]);
  }

  /**
   * k successive `sync` requests, each under the expected number and with
   * nothing added to the outbound queue in between, are answered with the
   * pages of the queue in order, numbered from `o_seq` on; once the pages
   * run out the answers are empty pages.
   */
  method Poll(s: Session, k: nat) returns (resps: seq<SyncResponse>)
    requires s.initialised && s.Valid()
    modifies s
    ensures s.Valid()
    ensures |resps| == k
    ensures forall j :: 0 <= j < k ==> resps[j].Page? && resps[j].number == old(s.oSeq) + j
    ensures forall j :: 0 <= j < k && j < |Pages(old(s.outgoing))| ==> resps[j].msgs == Pages(old(s.outgoing))[j]
    ensures forall j :: |Pages(old(s.outgoing))| <= j < k ==> resps[j].msgs == []
    ensures k >= |Pages(old(s.outgoing))| ==> s.outgoing == []
  {
    ghost var pages := Pages(s.outgoing);
    ghost var o0 := s.oSeq;
    resps := [];
    var i := 0;
    while i < k
      invariant 0 <= i <= k && |resps| == i
      invariant s.initialised && s.Valid() && s.oSeq == o0 + i
      invariant Pages(s.outgoing) == if i <= |pages| then pages[i..] else []
      invariant s.outgoing == [] <==> Pages(s.outgoing) == []
      invariant forall j :: 0 <= j < i ==> resps[j].Page? && resps[j].number == o0 + j
      invariant forall j :: 0 <= j < i && j < |pages| ==> resps[j].msgs == pages[j]
      invariant forall j :: |pages| <= j < i ==> resps[j].msgs == []
    {
      ghost var q := s.outgoing;
      if q != [] {
        PagesStep(q);
      }
      var r := s.Sync(s.iSeq, []);
      if q != [] {
        assert pages[i..][1..] == pages[i + 1..];
        var rest := s.outgoing;
        if rest != [] {
          PagesStep(rest);
        }
      }
      resps := resps + [r];
      i := i + 1;
    }
  }
}
