/**
 * A tunnelled TCP connection and its write loop (`Stream::send`).
 * `socket_write` is an oracle: what it reports for the bytes it is offered.
 */
module Streams {
  import opened Php
  import opened Protocol

  /** What `socket_write` reports: `false`, or the number of bytes it took. */
  datatype WriteResult = WriteFailed | Wrote(n: nat)

  /** The loop goes on after a write unless `$result == false`, which in PHP also holds for 0. */
  predicate Accepts(r: WriteResult)
  {
    r.Wrote? && r.n != 0
  }

  /** One call of `socket_write`: the bytes it was offered and what it reported. */
  datatype Attempt = Attempt(offered: Bytes, result: WriteResult)

  /** The value `send` returns, with every write it made, in order. */
  datatype SendOutcome = SendOutcome(ok: bool, attempts: seq<Attempt>)

  /**
   * `substr($data, n)` as far as the loop can tell: at or past the end PHP
   * gives "" or `false`, and both end the loop.
   */
  function Drop(data: Bytes, n: nat): (r: Bytes)
    ensures n < |data| ==> r == data[n..]
    ensures |data| <= n ==> r == []
  {
    if n < |data| then data[n..] else []
  }

  /** The bytes an attempt handed to the socket. */
  function Taken(a: Attempt): (r: Bytes)
    ensures r <= a.offered
    ensures a.result.Wrote? && a.result.n <= |a.offered| ==> |r| == a.result.n
    ensures a.result.WriteFailed? ==> r == []
  {
    match a.result
    case WriteFailed => []
    case Wrote(n) => if n < |a.offered| then a.offered[..n] else a.offered
  }

  /** Everything a sequence of attempts handed to the socket, in order. */
  function Written(attempts: seq<Attempt>): Bytes
  {
    if attempts == [] then [] else Taken(attempts[0]) + Written(attempts[1..])
  }

  /**
   * What `send($data)` does: while the remaining bytes are truthy, offer
   * them all to the socket; stop with `false` at a rejected write, else drop
   * the bytes taken and go on.
   */
  function SendSpec(data: Bytes, write: Bytes -> WriteResult): SendOutcome
    decreases |data|
  {
    if !Truthy(data) then SendOutcome(true, [])
    else
      var r := write(data);
      if !Accepts(r) then SendOutcome(false, [Attempt(data, r)])
      else
        var tail := SendSpec(Drop(data, r.n), write);
        SendOutcome(tail.ok, [Attempt(data, r)] + tail.attempts)
  }

  lemma WrittenPrefix(a: Attempt, rest: seq<Attempt>, j: nat)
    requires j <= |rest|
    ensures Written(([a] + rest)[..j + 1]) == Taken(a) + Written(rest[..j])
  {
    assert ([a] + rest)[..j + 1] == [a] + rest[..j];
    assert ([a] + rest[..j])[1..] == rest[..j];
  }

  /** Every write in the list was accepted. */
  predicate AllAccepted(attempts: seq<Attempt>)
  {
    forall j :: 0 <= j < |attempts| ==> Accepts(attempts[j].result)
  }

  /** The list ends with the one rejected write; every write before it was accepted. */
  predicate FailsLast(attempts: seq<Attempt>)
  {
    |attempts| > 0 && !Accepts(attempts[|attempts| - 1].result)
    && forall j :: 0 <= j < |attempts| - 1 ==> Accepts(attempts[j].result)
  }

  /** One unfolding of SendSpec at an accepted write. */
  lemma SendSpecStep(data: Bytes, write: Bytes -> WriteResult)
    requires Truthy(data) && Accepts(write(data))
    ensures var t := SendSpec(Drop(data, write(data).n), write);
      SendSpec(data, write) == SendOutcome(t.ok, [Attempt(data, write(data))] + t.attempts)
  {
  }

  lemma AcceptedCons(a: Attempt, t: seq<Attempt>)
    requires Accepts(a.result)
    ensures AllAccepted([a] + t) <==> AllAccepted(t)
    ensures FailsLast(t) ==> FailsLast([a] + t)
  {
    var all := [a] + t;
    assert forall j :: 1 <= j < |all| ==> all[j] == t[j - 1];
    if AllAccepted(all) {
      forall j | 0 <= j < |t| ensures Accepts(t[j].result) {
        assert t[j] == all[j + 1];
      }
    }
  }

  /** Send succeeds exactly when every write it made was accepted; a rejected write is its last. */
  lemma {:induction false} SendSucceedsIffAllAccepted(data: Bytes, write: Bytes -> WriteResult)
    ensures SendSpec(data, write).ok <==> AllAccepted(SendSpec(data, write).attempts)
    ensures !SendSpec(data, write).ok ==> FailsLast(SendSpec(data, write).attempts)
    decreases |data|
  {
    if !Truthy(data) {
      assert SendSpec(data, write) == SendOutcome(true, []);
    } else if !Accepts(write(data)) {
      assert SendSpec(data, write) == SendOutcome(false, [Attempt(data, write(data))]);
      assert !Accepts(SendSpec(data, write).attempts[0].result);
    } else {
      var a := Attempt(data, write(data));
      var rest := Drop(data, write(data).n);
      SendSucceedsIffAllAccepted(rest, write);
      SendSpecStep(data, write);
      AcceptedCons(a, SendSpec(rest, write).attempts);
    }
  }

  /** Each attempt is offered exactly the bytes of `data` that the attempts before it did not take. */
  predicate OffersUntaken(data: Bytes, attempts: seq<Attempt>)
  {
    forall j :: 0 <= j < |attempts| ==>
      |Written(attempts[..j])| <= |data| && attempts[j].offered == data[|Written(attempts[..j])|..]
  }

  lemma WrittenCons(a: Attempt, t: seq<Attempt>)
    ensures Written([a] + t) == Taken(a) + Written(t)
  {
    assert ([a] + t)[1..] == t;
  }

  lemma SliceAfterPrefix(x: Bytes, y: Bytes, k: nat)
    requires k <= |y|
    ensures (x + y)[|x| + k..] == y[k..]
  {
  }

  lemma OfferedAfterFirst(data: Bytes, a: Attempt, rest: Bytes, t: seq<Attempt>, j: nat)
    requires Taken(a) + rest == data
    requires OffersUntaken(rest, t)
    requires 1 <= j < |t| + 1
    ensures |Written(([a] + t)[..j])| <= |data| && ([a] + t)[j].offered == data[|Written(([a] + t)[..j])|..]
  {
    WrittenPrefix(a, t, j - 1);
    var w := Written(t[..j - 1]);
    assert ([a] + t)[j] == t[j - 1];
    assert Written(([a] + t)[..j]) == Taken(a) + w;
    SliceAfterPrefix(Taken(a), rest, |w|);
  }

  lemma OffersUntakenCons(data: Bytes, a: Attempt, rest: Bytes, t: seq<Attempt>)
    requires a.offered == data && Taken(a) + rest == data
    requires OffersUntaken(rest, t)
    ensures OffersUntaken(data, [a] + t)
  {
    var all := [a] + t;
    assert all[..0] == [];
    forall j | 1 <= j < |all|
      ensures |Written(all[..j])| <= |data| && all[j].offered == data[|Written(all[..j])|..]
    {
      OfferedAfterFirst(data, a, rest, t, j);
    }
  }

  /**
   * Send writes the buffer front to back: each write is offered exactly the
   * bytes not yet taken, and the bytes taken form a prefix of the input.
   */
  lemma TakenThenDropped(data: Bytes, r: WriteResult)
    requires r.Wrote?
    ensures Taken(Attempt(data, r)) + Drop(data, r.n) == data
  {
    if r.n < |data| {
      assert data[..r.n] + data[r.n..] == data;
    }
  }

  lemma PrefixCons(x: Bytes, w: Bytes, rest: Bytes)
    requires w <= rest
    ensures x + w <= x + rest
  {
    assert (x + rest)[..|x| + |w|] == x + w;
  }

  lemma {:induction false} SendWritesInOrder(data: Bytes, write: Bytes -> WriteResult)
    ensures Written(SendSpec(data, write).attempts) <= data
    ensures OffersUntaken(data, SendSpec(data, write).attempts)
    decreases |data|
  {
    if !Truthy(data) {
      assert SendSpec(data, write) == SendOutcome(true, []);
    } else if !Accepts(write(data)) {
      var a := Attempt(data, write(data));
      assert SendSpec(data, write) == SendOutcome(false, [a]);
      WrittenCons(a, []);
      assert [a][..0] == [];
    } else {
      var r := write(data);
      var a := Attempt(data, r);
      var rest := Drop(data, r.n);
      SendWritesInOrder(rest, write);
      SendSpecStep(data, write);
      var t := SendSpec(rest, write).attempts;
      WrittenCons(a, t);
      TakenThenDropped(data, r);
      PrefixCons(Taken(a), Written(t), rest);
      OffersUntakenCons(data, a, rest, t);
    }
  }

  /** When send returns true, the bytes it did not write form a falsy string: "" or "0". */
  lemma {:induction false} SendLeavesFalsyRest(data: Bytes, write: Bytes -> WriteResult)
    ensures var o := SendSpec(data, write);
      o.ok ==> |Written(o.attempts)| <= |data| && !Truthy(data[|Written(o.attempts)|..])
    decreases |data|
  {
    var o := SendSpec(data, write);
    if Truthy(data) {
      var r := write(data);
      var a := Attempt(data, r);
      if Accepts(r) {
        var rest := Drop(data, r.n);
        SendLeavesFalsyRest(rest, write);
        var t := SendSpec(rest, write).attempts;
        assert o.attempts[1..] == t;
        assert Taken(a) + rest == data;
      }
    }
  }

  /** Unless the input ends in the byte '0', a successful send wrote all of it. */
  lemma SendCompleteUnlessTrailingZero(data: Bytes, write: Bytes -> WriteResult)
    requires data == [] || data[|data| - 1] != ZERO_DIGIT
    ensures var o := SendSpec(data, write); o.ok ==> Written(o.attempts) == data
  {
    var o := SendSpec(data, write);
    SendWritesInOrder(data, write);
    SendLeavesFalsyRest(data, write);
    if o.ok {
      var w := Written(o.attempts);
      var rest := data[|w|..];
      assert data == w + rest;
    }
  }

  /** A socket that takes one byte per write. */
  function OneByteAtATime(b: Bytes): WriteResult
  {
    Wrote(1)
  }

  /**
   * The quirk of the loop guard: "10" written one byte at a time returns
   * true after writing only "1", because the remainder "0" is falsy.
   */
  lemma SendDropsTrailingZero()
    ensures var o := SendSpec([0x31, ZERO_DIGIT], OneByteAtATime);
      o.ok && Written(o.attempts) == [0x31]
  {
    var data: Bytes := [0x31, ZERO_DIGIT];
    assert Truthy(data) by { assert data[0] != ZERO_DIGIT; }
    assert Drop(data, 1) == [ZERO_DIGIT];
    assert SendSpec([ZERO_DIGIT], OneByteAtATime) == SendOutcome(true, []);
    SendSpecStep(data, OneByteAtATime);
    var a := Attempt(data, Wrote(1));
    assert SendSpec(data, OneByteAtATime) == SendOutcome(true, [a]);
    WrittenCons(a, []);
    assert Taken(a) == [0x31];
  }

  /** One tunnelled connection: the client's stream id and the socket created for it. */
  datatype Stream = Stream(sid: Sid, sock: Sock)
  {
    /**
     * `Stream::send`: `write` stands for `socket_write` on this stream's
     * socket. Returns what send returns and the writes it made.
     */
    method Send(data: Bytes, write: Bytes -> WriteResult) returns (ok: bool, attempts: seq<Attempt>)
      ensures SendOutcome(ok, attempts) == SendSpec(data, write)
      ensures ok <==> AllAccepted(attempts)
      ensures !ok ==> FailsLast(attempts)
      ensures Written(attempts) <= data && OffersUntaken(data, attempts)
      ensures ok ==> !Truthy(data[|Written(attempts)|..])
    {
      var rest := data;
      attempts := [];
      while Truthy(rest)
        invariant SendSpec(data, write)
                  == SendOutcome(SendSpec(rest, write).ok, attempts + SendSpec(rest, write).attempts)
        decreases |rest|
      {
        var r := write(rest);
        attempts := attempts + [Attempt(rest, r)];
        if !Accepts(r) {
          ok := false;
          SendSucceedsIffAllAccepted(data, write);
          SendWritesInOrder(data, write);
          return;
        }
        rest := Drop(rest, r.n);
      }
      ok := true;
      SendSucceedsIffAllAccepted(data, write);
      SendWritesInOrder(data, write);
      SendLeavesFalsyRest(data, write);
    }
  }
}
