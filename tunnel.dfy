/**
 * The tunnel engine (`class Tunnel`): it turns inbound messages into socket
 * bookkeeping, trades queues with the session, and turns the sockets that
 * `socket_select` reports as ready into outbound messages.
 *
 * Everything the operating system decides comes in as an oracle: name
 * resolution (`resolve`), `socket_write` (`write`), `socket_last_error`
 * (`errorOf`), `socket_read` (`readOf`) and the ready lists of
 * `socket_select`. Socket handles are abstract ids handed out by a counter.
 */
module Engine {
  import opened Php
  import opened Protocol
  import opened Streams
  import SessionQueue

  /** What `socket_read` reports: `false`, or the bytes read. */
  datatype ReadResult = ReadFailed | Read(data: Bytes)

  /** `$data == false` holds for `false`, "" and "0". */
  predicate ReadFails(r: ReadResult)
  {
    r.ReadFailed? || !Truthy(r.data)
  }

  /** `filter_var(gethostbyname(addr), FILTER_VALIDATE_IP)`: an address, or None for `false`. */
  type Resolver = string -> Option<string>

  /** `socket_write` while the k-th inbound message is handled, offered the given bytes. */
  type Writer = (nat, Bytes) -> WriteResult

  /** The fields of a `Tunnel`, plus the sockets created and closed so far. */
  datatype EngineState = EngineState(
    streams: map<Sid, Stream>,
    connecting: map<Sid, Stream>,
    socketToSid: map<Sock, Sid>,
    running: bool,
    incoming: seq<Message>,
    outgoing: seq<Message>,
    nextSock: Sock,
    closed: set<Sock>)

  function SocksOf(m: map<Sid, Stream>): set<Sock>
  {
    set k | k in m :: m[k].sock
  }

  /** Every stream of `m` sits under its own id, and `idx` maps its socket back to that id. */
  ghost predicate Indexed(m: map<Sid, Stream>, idx: map<Sock, Sid>)
  {
    forall k :: k in m ==> m[k].sid == k && m[k].sock in idx && idx[m[k].sock] == k
  }

  /**
   * The engine invariant: both stream maps are indexed by socket, no socket
   * is both open and connecting, every socket in use was created and is not
   * closed. The index may keep entries for sockets no longer in use.
   */
  ghost predicate Wf(s: EngineState)
  {
    && Indexed(s.streams, s.socketToSid)
    && Indexed(s.connecting, s.socketToSid)
    && (forall x :: x in s.socketToSid ==> x < s.nextSock)
    && (forall x :: x in s.closed ==> x < s.nextSock)
    && (forall a, b :: a in s.streams && b in s.connecting ==> s.streams[a].sock != s.connecting[b].sock)
    && (forall k :: k in s.streams ==> s.streams[k].sock !in s.closed)
    && (forall k :: k in s.connecting ==> s.connecting[k].sock !in s.closed)
  }

  // ---------------------------------------------------------------------
  // digest_incoming

  function WriterAt(write: Writer, k: nat): Bytes -> WriteResult
  {
    b => write(k, b)
  }

  /**
   * One inbound message, the k-th of the batch. A `connect` always creates a
   * socket, before the address is resolved; an unresolvable address is
   * reported with status 5 and the socket is left unused. A `sync` to an open
   * stream is sent, and a failed send is reported with status 5 while the
   * stream stays open. Everything else is ignored.
   */
  function DigestOne(s: EngineState, m: Message, k: nat, resolve: Resolver, write: Writer): EngineState
  {
    match m
    case Connect(id, addr, _) =>
      var sock := s.nextSock;
      if resolve(addr).None? then
        s.(nextSock := sock + 1, outgoing := s.outgoing + [Status(id, FAILURE)])
      else
        s.(nextSock := sock + 1,
           connecting := s.connecting[id := Stream(id, sock)],
           socketToSid := s.socketToSid[sock := id])
    case Sync(id, data) =>
      if id in s.streams && !SendSpec(data, WriterAt(write, k)).ok then
        s.(outgoing := s.outgoing + [Status(id, FAILURE)])
      else
        s
    case _ => s
  }

  /** The messages `ms`, numbered from k, handled front to back. */
  function Digest(s: EngineState, ms: seq<Message>, k: nat, resolve: Resolver, write: Writer): EngineState
    decreases |ms|
  {
    if ms == [] then s else Digest(DigestOne(s, ms[0], k, resolve, write), ms[1..], k + 1, resolve, write)
  }

  /** `digest_incoming`: handle the whole inbound queue, then empty it. */
  function Digested(s: EngineState, resolve: Resolver, write: Writer): EngineState
  {
    Digest(s, s.incoming, 0, resolve, write).(incoming := [])
  }

  /** Handling a batch is handling its front part, then the rest: messages are taken in order. */
  lemma {:induction false} DigestInOrder(s: EngineState, a: seq<Message>, b: seq<Message>, k: nat,
                                         resolve: Resolver, write: Writer)
    ensures Digest(s, a + b, k, resolve, write) == Digest(Digest(s, a, k, resolve, write), b, k + |a|, resolve, write)
    decreases |a|
  {
    if a == [] {
      assert a + b == b;
    } else {
      assert (a + b)[0] == a[0];
      assert (a + b)[1..] == a[1..] + b;
      DigestInOrder(DigestOne(s, a[0], k, resolve, write), a[1..], b, k + 1, resolve, write);
    }
  }

  /** An unresolvable `connect` reports status 5 and touches no map, but still uses up a socket. */
  lemma DigestUnresolvedConnect(s: EngineState, id: Sid, addr: string, port: int, k: nat,
                                resolve: Resolver, write: Writer)
    requires resolve(addr).None?
    ensures var r := DigestOne(s, Connect(id, addr, port), k, resolve, write);
      && r.outgoing == s.outgoing + [Status(id, FAILURE)]
      && r.streams == s.streams && r.connecting == s.connecting && r.socketToSid == s.socketToSid
      && r.nextSock == s.nextSock + 1
  {
  }

  /** A resolved `connect` registers a new connecting stream under its id and indexes its socket. */
  lemma DigestResolvedConnect(s: EngineState, id: Sid, addr: string, port: int, k: nat,
                              resolve: Resolver, write: Writer)
    requires resolve(addr).Some?
    ensures var r := DigestOne(s, Connect(id, addr, port), k, resolve, write);
      && r.connecting == s.connecting[id := Stream(id, s.nextSock)]
      && r.socketToSid == s.socketToSid[s.nextSock := id]
      && r.streams == s.streams && r.outgoing == s.outgoing
      && r.nextSock == s.nextSock + 1
  {
  }

  /**
   * A `sync` to an open stream reports status 5 exactly when the send fails,
   * and the stream stays open either way.
   */
  lemma DigestSyncToOpenStream(s: EngineState, id: Sid, data: Bytes, k: nat, resolve: Resolver, write: Writer)
    requires id in s.streams
    ensures var r := DigestOne(s, Sync(id, data), k, resolve, write);
      && r.(outgoing := s.outgoing) == s
      && r.outgoing == s.outgoing + (if SendSpec(data, WriterAt(write, k)).ok then [] else [Status(id, FAILURE)])
  {
  }

  /** A `sync` to an id with no open stream, and every message that is neither `connect` nor `sync`, changes nothing. */
  lemma DigestIgnored(s: EngineState, m: Message, k: nat, resolve: Resolver, write: Writer)
    requires !m.Connect?
    requires m.Sync? ==> m.id !in s.streams
    ensures DigestOne(s, m, k, resolve, write) == s
  {
  }

  /** The number of `connect` messages in a batch. */
  function Connects(ms: seq<Message>): nat
  {
    if ms == [] then 0 else (if ms[0].Connect? then 1 else 0) + Connects(ms[1..])
  }

  /**
   * Over a batch, digesting never opens or closes a stream, adds only
   * status-5 reports, and creates one socket per `connect`, resolvable or not.
   */
  lemma {:induction false} DigestEffects(s: EngineState, ms: seq<Message>, k: nat, resolve: Resolver, write: Writer)
    ensures var r := Digest(s, ms, k, resolve, write);
      && r.streams == s.streams && r.closed == s.closed
      && r.running == s.running && r.incoming == s.incoming
      && r.nextSock == s.nextSock + Connects(ms)
      && s.outgoing <= r.outgoing
      && (forall i :: |s.outgoing| <= i < |r.outgoing| ==> r.outgoing[i].Status? && r.outgoing[i].value == FAILURE)
    decreases |ms|
  {
    if ms != [] {
      var s1 := DigestOne(s, ms[0], k, resolve, write);
      DigestEffects(s1, ms[1..], k + 1, resolve, write);
    }
  }

  lemma DigestOneKeepsWf(s: EngineState, m: Message, k: nat, resolve: Resolver, write: Writer)
    requires Wf(s)
    ensures Wf(DigestOne(s, m, k, resolve, write))
  {
    if m.Connect? && resolve(m.addr).Some? {
      var r := DigestOne(s, m, k, resolve, write);
      var sock := s.nextSock;
      forall x | x in r.connecting
        ensures r.connecting[x].sid == x && r.connecting[x].sock in r.socketToSid
                && r.socketToSid[r.connecting[x].sock] == x
      {
        if x != m.id {
          assert r.connecting[x] == s.connecting[x];
          assert s.connecting[x].sock < sock;
        }
      }
      forall x | x in r.streams
        ensures r.streams[x].sock in r.socketToSid && r.socketToSid[r.streams[x].sock] == x
      {
        assert s.streams[x].sock < sock;
      }
    }
  }

  /** Digesting keeps the engine invariant. */
  lemma {:induction false} DigestKeepsWf(s: EngineState, ms: seq<Message>, k: nat, resolve: Resolver, write: Writer)
    requires Wf(s)
    ensures Wf(Digest(s, ms, k, resolve, write))
    decreases |ms|
  {
    if ms != [] {
      DigestOneKeepsWf(s, ms[0], k, resolve, write);
      DigestKeepsWf(DigestOne(s, ms[0], k, resolve, write), ms[1..], k + 1, resolve, write);
    }
  }

  // ---------------------------------------------------------------------
  // Post-select processing

  /** No socket appears twice. */
  predicate Distinct(socks: seq<Sock>)
  {
    forall i, j :: 0 <= i < j < |socks| ==> socks[i] != socks[j]
  }

  /** Every socket is indexed to a stream id present in `m`, and no two of them share an id. */
  predicate Routable(idx: map<Sock, Sid>, socks: seq<Sock>, m: map<Sid, Stream>)
  {
    && (forall j :: 0 <= j < |socks| ==> socks[j] in idx && idx[socks[j]] in m)
    && (forall i, j :: 0 <= i < j < |socks| && socks[i] in idx && socks[j] in idx ==> idx[socks[i]] != idx[socks[j]])
  }

  /** Id k is not the id of any of the sockets. */
  predicate Untouched(idx: map<Sock, Sid>, socks: seq<Sock>, k: Sid)
  {
    forall j :: 0 <= j < |socks| && socks[j] in idx ==> idx[socks[j]] != k
  }

  lemma RoutableTail(idx: map<Sock, Sid>, socks: seq<Sock>, m: map<Sid, Stream>,
                     idx': map<Sock, Sid>, m': map<Sid, Stream>)
    requires Routable(idx, socks, m) && |socks| > 0
    requires forall j :: 1 <= j < |socks| ==> socks[j] in idx' && idx'[socks[j]] == idx[socks[j]]
    requires forall k :: k in m && k != idx[socks[0]] ==> k in m'
    ensures Routable(idx', socks[1..], m')
  {
    var t := socks[1..];
    forall j | 0 <= j < |t| ensures t[j] in idx' && idx'[t[j]] in m' {
      assert t[j] == socks[j + 1];
    }
    forall i, j | 0 <= i < j < |t| && t[i] in idx' && t[j] in idx' ensures idx'[t[i]] != idx'[t[j]] {
      assert t[i] == socks[i + 1] && t[j] == socks[j + 1];
    }
  }

  lemma UntouchedTail(idx: map<Sock, Sid>, socks: seq<Sock>, k: Sid)
    requires Untouched(idx, socks, k) && |socks| > 0
    ensures Untouched(idx, socks[1..], k)
  {
    forall j | 0 <= j < |socks| - 1 && socks[1..][j] in idx ensures idx[socks[1..][j]] != k {
      assert socks[1..][j] == socks[j + 1];
    }
  }

  /** The status a ready connecting socket reports: its `socket_last_error`, 0 meaning connected. */
  function ConnectReport(s: EngineState, sock: Sock, errorOf: Sock -> int): Message
    requires sock in s.socketToSid
  {
    Status(s.socketToSid[sock], errorOf(sock))
  }

  /**
   * One ready connecting socket: report its error, open its stream when the
   * error is 0 and close the socket otherwise, and drop it from the
   * connecting streams. The index entry stays in both cases.
   */
  function ConnectOne(s: EngineState, sock: Sock, errorOf: Sock -> int): EngineState
    requires sock in s.socketToSid && s.socketToSid[sock] in s.connecting
  {
    var sid := s.socketToSid[sock];
    var s' := s.(outgoing := s.outgoing + [ConnectReport(s, sock, errorOf)], connecting := s.connecting - {sid});
    if errorOf(sock) == 0 then s'.(streams := s.streams[sid := s.connecting[sid]])
    else s'.(closed := s.closed + {sock})
  }

  /** The loop over the ready connecting sockets. */
  function ConnectPhase(s: EngineState, socks: seq<Sock>, errorOf: Sock -> int): EngineState
    requires Routable(s.socketToSid, socks, s.connecting)
    decreases |socks|
  {
    if socks == [] then s
    else
      var s1 := ConnectOne(s, socks[0], errorOf);
      RoutableTail(s.socketToSid, socks, s.connecting, s1.socketToSid, s1.connecting);
      ConnectPhase(s1, socks[1..], errorOf)
  }

  /** The message a ready open socket produces: status 5 for a failed read, else the bytes read. */
  function ReadReport(s: EngineState, sock: Sock, readOf: Sock -> ReadResult): Message
    requires sock in s.socketToSid && s.socketToSid[sock] in s.streams
  {
    var sid := s.socketToSid[sock];
    var r := readOf(s.streams[sid].sock);
    if ReadFails(r) then Status(sid, FAILURE) else Sync(sid, r.data)
  }

  /**
   * One ready open socket. The read goes to the socket of the stream its id
   * names now; a failed read closes the ready socket and drops the stream
   * and the socket's index entry.
   */
  function ReadOne(s: EngineState, sock: Sock, readOf: Sock -> ReadResult): EngineState
    requires sock in s.socketToSid && s.socketToSid[sock] in s.streams
  {
    var sid := s.socketToSid[sock];
    var s' := s.(outgoing := s.outgoing + [ReadReport(s, sock, readOf)]);
    if ReadFails(readOf(s.streams[sid].sock)) then
      s'.(closed := s.closed + {sock}, streams := s.streams - {sid}, socketToSid := s.socketToSid - {sock})
    else s'
  }

  /** The loop over the ready open sockets. */
  function ReadPhase(s: EngineState, socks: seq<Sock>, readOf: Sock -> ReadResult): EngineState
    requires Routable(s.socketToSid, socks, s.streams)
    decreases |socks|
  {
    if socks == [] then s
    else
      var s1 := ReadOne(s, socks[0], readOf);
      assert forall j :: 1 <= j < |socks| ==> socks[j] != socks[0];
      RoutableTail(s.socketToSid, socks, s.streams, s1.socketToSid, s1.streams);
      ReadPhase(s1, socks[1..], readOf)
  }

  // Effects of the two loops, socket by socket

  lemma {:induction false} ConnectPhaseFrame(s: EngineState, socks: seq<Sock>, errorOf: Sock -> int)
    requires Routable(s.socketToSid, socks, s.connecting)
    ensures var r := ConnectPhase(s, socks, errorOf);
      && r.socketToSid == s.socketToSid && r.nextSock == s.nextSock
      && r.running == s.running && r.incoming == s.incoming
      && s.closed <= r.closed
      && (forall x :: x in r.closed && x !in s.closed ==> x in socks && errorOf(x) != 0)
      && r.connecting.Keys <= s.connecting.Keys
      && (forall k :: k in r.connecting ==> r.connecting[k] == s.connecting[k])
      && s.streams.Keys <= r.streams.Keys
    decreases |socks|
  {
    if socks != [] {
      var s1 := ConnectOne(s, socks[0], errorOf);
      RoutableTail(s.socketToSid, socks, s.connecting, s1.socketToSid, s1.connecting);
      ConnectPhaseFrame(s1, socks[1..], errorOf);
    }
  }

  /** The connect loop reports one status per ready socket, in order, carrying its error. */
  lemma {:induction false} ConnectPhaseReports(s: EngineState, socks: seq<Sock>, errorOf: Sock -> int)
    requires Routable(s.socketToSid, socks, s.connecting)
    ensures var r := ConnectPhase(s, socks, errorOf);
      && |r.outgoing| == |s.outgoing| + |socks|
      && r.outgoing[..|s.outgoing|] == s.outgoing
      && forall j :: 0 <= j < |socks| ==> r.outgoing[|s.outgoing| + j] == ConnectReport(s, socks[j], errorOf)
    decreases |socks|
  {
    if socks != [] {
      var s1 := ConnectOne(s, socks[0], errorOf);
      RoutableTail(s.socketToSid, socks, s.connecting, s1.socketToSid, s1.connecting);
      ConnectPhaseReports(s1, socks[1..], errorOf);
      var r := ConnectPhase(s, socks, errorOf);
      assert r.outgoing[..|s1.outgoing|] == s1.outgoing;
      assert r.outgoing[..|s.outgoing|] == s1.outgoing[..|s.outgoing|];
      forall j | 1 <= j < |socks|
        ensures r.outgoing[|s.outgoing| + j] == ConnectReport(s, socks[j], errorOf)
      {
        assert socks[1..][j - 1] == socks[j];
      }
    }
  }

  /** Streams whose ids no ready connecting socket names are left alone by the connect loop. */
  lemma {:induction false} ConnectPhaseOthers(s: EngineState, socks: seq<Sock>, errorOf: Sock -> int, k: Sid)
    requires Routable(s.socketToSid, socks, s.connecting)
    requires Untouched(s.socketToSid, socks, k)
    ensures var r := ConnectPhase(s, socks, errorOf);
      && (k in r.connecting <==> k in s.connecting) && (k in s.connecting ==> r.connecting[k] == s.connecting[k])
      && (k in r.streams <==> k in s.streams) && (k in s.streams ==> r.streams[k] == s.streams[k])
    decreases |socks|
  {
    if socks != [] {
      var s1 := ConnectOne(s, socks[0], errorOf);
      RoutableTail(s.socketToSid, socks, s.connecting, s1.socketToSid, s1.connecting);
      UntouchedTail(s.socketToSid, socks, k);
      ConnectPhaseOthers(s1, socks[1..], errorOf, k);
    }
  }

  /**
   * The j-th ready connecting socket leaves the connecting streams; with
   * error 0 its stream becomes open, otherwise its socket is closed and the
   * open streams are as they were under its id.
   */
  lemma {:induction false} ConnectPhaseAt(s: EngineState, socks: seq<Sock>, errorOf: Sock -> int, j: nat)
    requires Routable(s.socketToSid, socks, s.connecting)
    requires j < |socks|
    ensures var r := ConnectPhase(s, socks, errorOf); var sid := s.socketToSid[socks[j]];
      && sid !in r.connecting
      && (errorOf(socks[j]) == 0 ==> sid in r.streams && r.streams[sid] == s.connecting[sid])
      && (errorOf(socks[j]) != 0 ==>
            && socks[j] in r.closed
            && (sid in r.streams <==> sid in s.streams)
            && (sid in s.streams ==> r.streams[sid] == s.streams[sid]))
    decreases |socks|
  {
    var s1 := ConnectOne(s, socks[0], errorOf);
    RoutableTail(s.socketToSid, socks, s.connecting, s1.socketToSid, s1.connecting);
    var sid0 := s.socketToSid[socks[0]];
    if j == 0 {
      assert Untouched(s1.socketToSid, socks[1..], sid0) by {
        forall i | 0 <= i < |socks| - 1 && socks[1..][i] in s1.socketToSid
          ensures s1.socketToSid[socks[1..][i]] != sid0
        {
          assert socks[1..][i] == socks[i + 1];
        }
      }
      ConnectPhaseOthers(s1, socks[1..], errorOf, sid0);
      ConnectPhaseFrame(s1, socks[1..], errorOf);
    } else {
      assert socks[1..][j - 1] == socks[j];
      ConnectPhaseAt(s1, socks[1..], errorOf, j - 1);
    }
  }

  lemma {:induction false} ReadPhaseFrame(s: EngineState, socks: seq<Sock>, readOf: Sock -> ReadResult)
    requires Routable(s.socketToSid, socks, s.streams)
    ensures var r := ReadPhase(s, socks, readOf);
      && r.connecting == s.connecting && r.nextSock == s.nextSock
      && r.running == s.running && r.incoming == s.incoming
      && s.closed <= r.closed
      && (forall x :: x in r.closed && x !in s.closed ==> x in socks)
      && r.streams.Keys <= s.streams.Keys
      && (forall k :: k in r.streams ==> r.streams[k] == s.streams[k])
      && r.socketToSid.Keys <= s.socketToSid.Keys
      && (forall x :: x in r.socketToSid ==> r.socketToSid[x] == s.socketToSid[x])
    decreases |socks|
  {
    if socks != [] {
      var s1 := ReadOne(s, socks[0], readOf);
      assert forall j :: 1 <= j < |socks| ==> socks[j] != socks[0];
      RoutableTail(s.socketToSid, socks, s.streams, s1.socketToSid, s1.streams);
      ReadPhaseFrame(s1, socks[1..], readOf);
    }
  }

  /** The read loop produces one message per ready socket, in order: the bytes read, or status 5. */
  lemma {:induction false} ReadPhaseReports(s: EngineState, socks: seq<Sock>, readOf: Sock -> ReadResult)
    requires Routable(s.socketToSid, socks, s.streams)
    ensures var r := ReadPhase(s, socks, readOf);
      && |r.outgoing| == |s.outgoing| + |socks|
      && r.outgoing[..|s.outgoing|] == s.outgoing
      && forall j :: 0 <= j < |socks| ==> r.outgoing[|s.outgoing| + j] == ReadReport(s, socks[j], readOf)
    decreases |socks|
  {
    if socks != [] {
      var s1 := ReadOne(s, socks[0], readOf);
      assert forall j :: 1 <= j < |socks| ==> socks[j] != socks[0];
      RoutableTail(s.socketToSid, socks, s.streams, s1.socketToSid, s1.streams);
      ReadPhaseReports(s1, socks[1..], readOf);
      var r := ReadPhase(s, socks, readOf);
      assert r.outgoing[..|s1.outgoing|] == s1.outgoing;
      assert r.outgoing[..|s.outgoing|] == s1.outgoing[..|s.outgoing|];
      forall j | 1 <= j < |socks|
        ensures r.outgoing[|s.outgoing| + j] == ReadReport(s, socks[j], readOf)
      {
        assert socks[1..][j - 1] == socks[j];
        assert s.socketToSid[socks[j]] != s.socketToSid[socks[0]];
      }
    }
  }

  /** Open streams and index entries that no ready socket names are left alone by the read loop. */
  lemma {:induction false} ReadPhaseOthers(s: EngineState, socks: seq<Sock>, readOf: Sock -> ReadResult, k: Sid, x: Sock)
    requires Routable(s.socketToSid, socks, s.streams)
    requires Untouched(s.socketToSid, socks, k)
    requires x !in socks
    ensures var r := ReadPhase(s, socks, readOf);
      && (k in r.streams <==> k in s.streams) && (k in s.streams ==> r.streams[k] == s.streams[k])
      && (x in r.socketToSid <==> x in s.socketToSid) && (x in s.socketToSid ==> r.socketToSid[x] == s.socketToSid[x])
    decreases |socks|
  {
    if socks != [] {
      var s1 := ReadOne(s, socks[0], readOf);
      assert forall j :: 1 <= j < |socks| ==> socks[j] != socks[0];
      RoutableTail(s.socketToSid, socks, s.streams, s1.socketToSid, s1.streams);
      UntouchedTail(s.socketToSid, socks, k);
      assert Untouched(s1.socketToSid, socks[1..], k) by {
        forall i | 0 <= i < |socks| - 1 && socks[1..][i] in s1.socketToSid
          ensures s1.socketToSid[socks[1..][i]] != k
        {
          assert socks[1..][i] == socks[i + 1];
        }
      }
      ReadPhaseOthers(s1, socks[1..], readOf, k, x);
    }
  }

  /**
   * The j-th ready open socket: after a failed read, its stream, its index
   * entry and the socket itself are gone; after a good read all three stay.
   */
  lemma {:induction false} ReadPhaseAt(s: EngineState, socks: seq<Sock>, readOf: Sock -> ReadResult, j: nat)
    requires Routable(s.socketToSid, socks, s.streams)
    requires j < |socks|
    ensures var r := ReadPhase(s, socks, readOf); var sid := s.socketToSid[socks[j]];
      && (ReadFails(readOf(s.streams[sid].sock)) ==>
            sid !in r.streams && socks[j] !in r.socketToSid && socks[j] in r.closed)
      && (!ReadFails(readOf(s.streams[sid].sock)) ==>
            && sid in r.streams && r.streams[sid] == s.streams[sid]
            && socks[j] in r.socketToSid && r.socketToSid[socks[j]] == sid)
    decreases |socks|
  {
    var s1 := ReadOne(s, socks[0], readOf);
    assert forall i :: 1 <= i < |socks| ==> socks[i] != socks[0];
    RoutableTail(s.socketToSid, socks, s.streams, s1.socketToSid, s1.streams);
    var sid0 := s.socketToSid[socks[0]];
    if j == 0 {
      assert Untouched(s1.socketToSid, socks[1..], sid0) by {
        forall i | 0 <= i < |socks| - 1 && socks[1..][i] in s1.socketToSid
          ensures s1.socketToSid[socks[1..][i]] != sid0
        {
          assert socks[1..][i] == socks[i + 1];
        }
      }
      assert socks[0] !in socks[1..];
      ReadPhaseOthers(s1, socks[1..], readOf, sid0, socks[0]);
      ReadPhaseFrame(s1, socks[1..], readOf);
    } else {
      assert socks[1..][j - 1] == socks[j];
      assert s.socketToSid[socks[j]] != sid0;
      ReadPhaseAt(s1, socks[1..], readOf, j - 1);
    }
  }

  // ---------------------------------------------------------------------
  // The engine invariant across the post-select loops

  /** Ready connecting sockets: distinct, each the socket of a connecting stream. */
  ghost predicate ConnectReady(s: EngineState, socks: seq<Sock>)
  {
    Distinct(socks) && forall j :: 0 <= j < |socks| ==> socks[j] in SocksOf(s.connecting)
  }

  /** Ready open sockets: distinct, routable to open streams, none of them connecting. */
  ghost predicate ActiveReady(s: EngineState, socks: seq<Sock>)
  {
    && Distinct(socks)
    && Routable(s.socketToSid, socks, s.streams)
    && forall j :: 0 <= j < |socks| ==> socks[j] !in SocksOf(s.connecting)
  }

  lemma SocksOfIndexed(m: map<Sid, Stream>, idx: map<Sock, Sid>, x: Sock)
    requires Indexed(m, idx) && x in SocksOf(m)
    ensures x in idx && idx[x] in m && m[idx[x]].sock == x
  {
    var k :| k in m && m[k].sock == x;
  }

  lemma WfConnectRoutable(s: EngineState, socks: seq<Sock>)
    requires Wf(s) && ConnectReady(s, socks)
    ensures Routable(s.socketToSid, socks, s.connecting)
  {
    forall j | 0 <= j < |socks| ensures socks[j] in s.socketToSid && s.socketToSid[socks[j]] in s.connecting {
      SocksOfIndexed(s.connecting, s.socketToSid, socks[j]);
    }
    forall i, j | 0 <= i < j < |socks| && socks[i] in s.socketToSid && socks[j] in s.socketToSid
      ensures s.socketToSid[socks[i]] != s.socketToSid[socks[j]]
    {
      SocksOfIndexed(s.connecting, s.socketToSid, socks[i]);
      SocksOfIndexed(s.connecting, s.socketToSid, socks[j]);
    }
  }

  lemma WfActiveReady(s: EngineState, socks: seq<Sock>)
    requires Wf(s) && Distinct(socks)
    requires forall j :: 0 <= j < |socks| ==> socks[j] in SocksOf(s.streams)
    ensures ActiveReady(s, socks)
  {
    forall j | 0 <= j < |socks|
      ensures socks[j] in s.socketToSid && s.socketToSid[socks[j]] in s.streams && socks[j] !in SocksOf(s.connecting)
    {
      SocksOfIndexed(s.streams, s.socketToSid, socks[j]);
      if socks[j] in SocksOf(s.connecting) {
        SocksOfIndexed(s.connecting, s.socketToSid, socks[j]);
        assert false;
      }
    }
    forall i, j | 0 <= i < j < |socks| && socks[i] in s.socketToSid && socks[j] in s.socketToSid
      ensures s.socketToSid[socks[i]] != s.socketToSid[socks[j]]
    {
      SocksOfIndexed(s.streams, s.socketToSid, socks[i]);
      SocksOfIndexed(s.streams, s.socketToSid, socks[j]);
    }
  }

  /** One step of the connect loop keeps the invariant and the readiness of what is left. */
  lemma ConnectOneKeepsWf(s: EngineState, socks: seq<Sock>, ra: seq<Sock>, errorOf: Sock -> int)
    requires Wf(s) && ConnectReady(s, socks) && ActiveReady(s, ra) && |socks| > 0
    ensures socks[0] in s.socketToSid && s.socketToSid[socks[0]] in s.connecting
    ensures var r := ConnectOne(s, socks[0], errorOf);
      Wf(r) && ConnectReady(r, socks[1..]) && ActiveReady(r, ra)
  {
    var sock := socks[0];
    SocksOfIndexed(s.connecting, s.socketToSid, sock);
    var sid := s.socketToSid[sock];
    var r := ConnectOne(s, sock, errorOf);
    forall j | 0 <= j < |socks| - 1 ensures socks[1..][j] in SocksOf(r.connecting) {
      var x := socks[1..][j];
      assert x == socks[j + 1];
      SocksOfIndexed(s.connecting, s.socketToSid, x);
      assert s.socketToSid[x] != sid;
      assert r.connecting[s.socketToSid[x]].sock == x;
    }
    forall a, b | a in r.streams && b in r.connecting ensures r.streams[a].sock != r.connecting[b].sock {
      if a == sid && errorOf(sock) == 0 {
        assert r.streams[a].sock == sock;
        assert b != sid;
      }
    }
  }

  /** One step of the read loop keeps the invariant and the readiness of what is left. */
  lemma ReadOneKeepsWf(s: EngineState, socks: seq<Sock>, readOf: Sock -> ReadResult)
    requires Wf(s) && ActiveReady(s, socks) && |socks| > 0
    ensures var r := ReadOne(s, socks[0], readOf);
      Wf(r) && ActiveReady(r, socks[1..])
  {
    var sock := socks[0];
    var sid := s.socketToSid[sock];
    var r := ReadOne(s, sock, readOf);
    assert forall j :: 1 <= j < |socks| ==> socks[j] != socks[0];
    RoutableTail(s.socketToSid, socks, s.streams, r.socketToSid, r.streams);
    forall j | 0 <= j < |socks| - 1 ensures socks[1..][j] !in SocksOf(r.connecting) {
      assert socks[1..][j] == socks[j + 1];
    }
    forall i, j | 0 <= i < j < |socks| - 1 ensures socks[1..][i] != socks[1..][j] {
      assert socks[1..][i] == socks[i + 1] && socks[1..][j] == socks[j + 1];
    }
    if ReadFails(readOf(s.streams[sid].sock)) {
      forall k | k in r.streams ensures r.streams[k].sock != sock {
        assert s.socketToSid[s.streams[k].sock] == k;
      }
      forall k | k in r.connecting ensures r.connecting[k].sock != sock {
        assert r.connecting[k].sock in SocksOf(s.connecting);
      }
    }
  }

  lemma {:induction false} ConnectPhaseKeepsWf(s: EngineState, rc: seq<Sock>, ra: seq<Sock>, errorOf: Sock -> int)
    requires Wf(s) && ConnectReady(s, rc) && ActiveReady(s, ra)
    ensures Routable(s.socketToSid, rc, s.connecting)
    ensures var r := ConnectPhase(s, rc, errorOf); Wf(r) && ActiveReady(r, ra)
    decreases |rc|
  {
    WfConnectRoutable(s, rc);
    if rc != [] {
      ConnectOneKeepsWf(s, rc, ra, errorOf);
      var s1 := ConnectOne(s, rc[0], errorOf);
      ConnectPhaseKeepsWf(s1, rc[1..], ra, errorOf);
    }
  }

  lemma {:induction false} ReadPhaseKeepsWf(s: EngineState, ra: seq<Sock>, readOf: Sock -> ReadResult)
    requires Wf(s) && ActiveReady(s, ra)
    ensures Wf(ReadPhase(s, ra, readOf))
    decreases |ra|
  {
    if ra != [] {
      ReadOneKeepsWf(s, ra, readOf);
      ReadPhaseKeepsWf(ReadOne(s, ra[0], readOf), ra[1..], readOf);
    }
  }

  /**
   * What `socket_select` may hand back: distinct sockets, the connecting ones
   * drawn from the connecting streams and the active ones from the open
   * streams, both snapshots taken before either loop runs.
   */
  ghost predicate SelectResult(s: EngineState, rc: seq<Sock>, ra: seq<Sock>)
  {
    && ConnectReady(s, rc)
    && Distinct(ra)
    && forall j :: 0 <= j < |ra| ==> ra[j] in SocksOf(s.streams)
  }

  /** The post-select processing: the connect loop, then the read loop. */
  function AfterSelect(s: EngineState, rc: seq<Sock>, ra: seq<Sock>,
                       errorOf: Sock -> int, readOf: Sock -> ReadResult): EngineState
    requires Wf(s) && SelectResult(s, rc, ra)
  {
    WfActiveReady(s, ra);
    ConnectPhaseKeepsWf(s, rc, ra, errorOf);
    ReadPhase(ConnectPhase(s, rc, errorOf), ra, readOf)
  }

  // ---------------------------------------------------------------------
  // What the post-select processing promises

  /**
   * A ready connecting socket ends up as the socket of an open stream exactly
   * when its error is 0; it is never left connecting. A failed one is closed
   * but keeps its index entry.
   */
  lemma ConnectedIffNoError(s: EngineState, rc: seq<Sock>, errorOf: Sock -> int, j: nat)
    requires Wf(s) && ConnectReady(s, rc) && j < |rc|
    ensures Routable(s.socketToSid, rc, s.connecting)
    ensures var r := ConnectPhase(s, rc, errorOf);
      && rc[j] !in SocksOf(r.connecting)
      && (rc[j] in SocksOf(r.streams) <==> errorOf(rc[j]) == 0)
      && (errorOf(rc[j]) != 0 ==> rc[j] in r.closed && rc[j] in r.socketToSid)
  {
    ConnectPhaseKeepsWf(s, rc, [], errorOf);
    var r := ConnectPhase(s, rc, errorOf);
    ConnectPhaseAt(s, rc, errorOf, j);
    ConnectPhaseFrame(s, rc, errorOf);
    SocksOfIndexed(s.connecting, s.socketToSid, rc[j]);
    var sid := s.socketToSid[rc[j]];
    if errorOf(rc[j]) == 0 {
      assert r.streams[sid].sock == rc[j];
    }
  }

  /**
   * A ready open socket whose read fails is closed, loses its index entry and
   * is no longer the socket of any open stream; after a good read the stream
   * it routes to is still open.
   */
  lemma FailedReadRetiresSocket(s: EngineState, ra: seq<Sock>, readOf: Sock -> ReadResult, j: nat)
    requires Wf(s) && ActiveReady(s, ra) && j < |ra|
    ensures var r := ReadPhase(s, ra, readOf); var sid := s.socketToSid[ra[j]];
      && (ReadFails(readOf(s.streams[sid].sock)) ==>
            ra[j] in r.closed && ra[j] !in r.socketToSid && ra[j] !in SocksOf(r.streams))
      && (!ReadFails(readOf(s.streams[sid].sock)) ==> sid in r.streams && r.streams[sid] == s.streams[sid])
  {
    ReadPhaseKeepsWf(s, ra, readOf);
    ReadPhaseAt(s, ra, readOf, j);
  }

  /**
   * The messages the post-select processing appends: one status per ready
   * connecting socket, then one message per ready open socket, each in the
   * order `socket_select` listed them.
   */
  lemma AfterSelectReports(s: EngineState, rc: seq<Sock>, ra: seq<Sock>,
                           errorOf: Sock -> int, readOf: Sock -> ReadResult)
    requires Wf(s) && SelectResult(s, rc, ra)
    ensures var m := (WfActiveReady(s, ra); ConnectPhaseKeepsWf(s, rc, ra, errorOf); ConnectPhase(s, rc, errorOf));
      var r := AfterSelect(s, rc, ra, errorOf, readOf);
      && |r.outgoing| == |s.outgoing| + |rc| + |ra|
      && r.outgoing[..|s.outgoing|] == s.outgoing
      && (forall j :: 0 <= j < |rc| ==>
            r.outgoing[|s.outgoing| + j] == Status(s.socketToSid[rc[j]], errorOf(rc[j])))
      && (forall j :: 0 <= j < |ra| ==> r.outgoing[|s.outgoing| + |rc| + j] == ReadReport(m, ra[j], readOf))
  {
    WfActiveReady(s, ra);
    ConnectPhaseKeepsWf(s, rc, ra, errorOf);
    var m := ConnectPhase(s, rc, errorOf);
    ConnectPhaseReports(s, rc, errorOf);
    ReadPhaseReports(m, ra, readOf);
    var r := ReadPhase(m, ra, readOf);
    assert r.outgoing[..|s.outgoing|] == m.outgoing[..|s.outgoing|];
  }

  /**
   * The post-select processing keeps the engine invariant, leaves the socket
   * counter, the running flag and the engine's inbound queue alone, and
   * closes only sockets that were reported ready.
   */
  lemma AfterSelectFrame(s: EngineState, rc: seq<Sock>, ra: seq<Sock>,
                         errorOf: Sock -> int, readOf: Sock -> ReadResult)
    requires Wf(s) && SelectResult(s, rc, ra)
    ensures var r := AfterSelect(s, rc, ra, errorOf, readOf);
      && Wf(r)
      && r.nextSock == s.nextSock && r.running == s.running && r.incoming == s.incoming
      && s.closed <= r.closed
      && (forall x :: x in r.closed && x !in s.closed ==> x in rc || x in ra)
  {
    WfActiveReady(s, ra);
    ConnectPhaseKeepsWf(s, rc, ra, errorOf);
    var m := ConnectPhase(s, rc, errorOf);
    ConnectPhaseFrame(s, rc, errorOf);
    ReadPhaseFrame(m, ra, readOf);
    ReadPhaseKeepsWf(m, ra, readOf);
  }

  // ---------------------------------------------------------------------
  // A stream can be reported failed twice

  function RefuseAll(k: nat, b: Bytes): WriteResult { WriteFailed }

  function HangUp(x: Sock): ReadResult { ReadFailed }

  /** One open stream 1 on socket 0, with a `sync` for it waiting. */
  function OneOpenStream(): EngineState
  {
    EngineState(map[1 := Stream(1, 0)], map[], map[0 := 1], true, [Sync(1, [0x41])], [], 1, {})
  }

  /**
   * A `sync` whose send fails is reported with status 5 but leaves the stream
   * open, so when the following read fails a second status 5 goes out for
   * the same stream.
   */
  lemma SendFailureThenReadFailure()
    ensures Wf(OneOpenStream())
    ensures var d := Digested(OneOpenStream(), _ => None, RefuseAll);
      && d.outgoing == [Status(1, FAILURE)] && 1 in d.streams
      && Wf(d) && SelectResult(d, [], [0])
      && AfterSelect(d, [], [0], _ => 0, HangUp).outgoing == [Status(1, FAILURE), Status(1, FAILURE)]
  {
    var s := OneOpenStream();
    var w := WriterAt(RefuseAll, 0);
    var a: Bytes := [0x41];
    assert RefuseAll(0, a) == WriteFailed;
    assert w(a) == WriteFailed;
    assert Truthy(a);
    assert SendSpec([0x41], w) == SendOutcome(false, [Attempt([0x41], WriteFailed)]);
    var d := Digested(s, _ => None, RefuseAll);
    assert d.outgoing == [Status(1, FAILURE)];
    assert 0 in SocksOf(d.streams);
    WfActiveReady(d, [0]);
    ConnectPhaseKeepsWf(d, [], [0], _ => 0);
    assert ReadPhase(d, [0], HangUp) == ReadOne(d, 0, HangUp);
  }

  /** Socket 1 is dead; every other socket has a byte to read. */
  function DeadSocketOne(x: Sock): ReadResult
  {
    if x == 1 then ReadFailed else Read([0x41])
  }

  /**
   * Stream 1 is open on socket 0 while a second `connect` for id 1 waits on
   * socket 1.
   */
  function ReconnectingOpenId(): EngineState
  {
    EngineState(map[1 := Stream(1, 0)], map[1 := Stream(1, 1)], map[0 := 1, 1 := 1], true, [], [], 2, {})
  }

  /** Every connect succeeds. */
  function NoError(x: Sock): int { 0 }

  /** The connect loop of the reconnect example: socket 1's stream replaces the open stream 1. */
  lemma ReconnectPromotes()
    ensures Routable(ReconnectingOpenId().socketToSid, [1], ReconnectingOpenId().connecting)
    ensures ConnectPhase(ReconnectingOpenId(), [1], NoError)
            == EngineState(map[1 := Stream(1, 1)], map[], map[0 := 1, 1 := 1], true, [], [Status(1, 0)], 2, {})
  {
    var s := ReconnectingOpenId();
    var m := ConnectOne(s, 1, NoError);
    assert ConnectPhase(s, [1], NoError) == ConnectPhase(m, [], NoError);
    assert m.connecting == map[];
  }

  /** The read loop of the reconnect example: the read for socket 0 goes to socket 1 and fails. */
  lemma ReconnectReadFails()
    ensures var m := EngineState(map[1 := Stream(1, 1)], map[], map[0 := 1, 1 := 1], true, [], [Status(1, 0)], 2, {});
      && Routable(m.socketToSid, [0], m.streams)
      && ReadPhase(m, [0], DeadSocketOne)
         == EngineState(map[], map[], map[1 := 1], true, [], [Status(1, 0), Status(1, FAILURE)], 2, {0})
  {
    var m := EngineState(map[1 := Stream(1, 1)], map[], map[0 := 1, 1 := 1], true, [], [Status(1, 0)], 2, {});
    assert ReadPhase(m, [0], DeadSocketOne) == ReadPhase(ReadOne(m, 0, DeadSocketOne), [], DeadSocketOne);
    assert (map[0 := 1, 1 := 1] - {0}) == map[1 := 1];
    assert (map[1 := Stream(1, 1)] - {1}) == map[];
  }

  /**
   * Reconnecting an id that is still open: socket 1 connects and replaces the
   * open stream, and the read for ready socket 0 then goes to socket 1. That
   * read fails, so status 0 is followed by status 5, the new stream is
   * dropped, socket 0 is closed, and socket 1 stays indexed but is never
   * closed.
   */
  lemma ReconnectReadsNewSocket()
    ensures Wf(ReconnectingOpenId()) && SelectResult(ReconnectingOpenId(), [1], [0])
    ensures var r := AfterSelect(ReconnectingOpenId(), [1], [0], NoError, DeadSocketOne);
      && r.outgoing == [Status(1, 0), Status(1, FAILURE)]
      && r.streams == map[] && r.connecting == map[]
      && r.socketToSid == map[1 := 1] && r.closed == {0}
  {
    var s := ReconnectingOpenId();
    assert 1 in s.connecting && s.connecting[1].sock == 1;
    assert 1 in SocksOf(s.connecting);
    assert 1 in s.streams && s.streams[1].sock == 0;
    assert 0 in SocksOf(s.streams);
    WfActiveReady(s, [0]);
    ConnectPhaseKeepsWf(s, [1], [0], NoError);
    ReconnectPromotes();
    ReconnectReadFails();
  }

  // ---------------------------------------------------------------------
  // The engine object

  /** A `Tunnel`: the stream tables, the queues and the socket bookkeeping. */
  class Tunnel {
    var streams: map<Sid, Stream>
    var connecting: map<Sid, Stream>
    var socketToSid: map<Sock, Sid>
    var running: bool
    var incoming: seq<Message>
    var outgoing: seq<Message>
    var nextSock: Sock
    var closed: set<Sock>

    function State(): EngineState
      reads this
    {
      EngineState(streams, connecting, socketToSid, running, incoming, outgoing, nextSock, closed)
    }

    ghost predicate Valid()
      reads this
    {
      Wf(State())
    }

    /** A new tunnel: no streams, running, both queues empty. */
    constructor ()
      ensures Valid()
      ensures State() == EngineState(map[], map[], map[], true, [], [], 0, {})
    {
      streams, connecting, socketToSid := map[], map[], map[];
      running := true;
      incoming, outgoing := [], [];
      nextSock, closed := 0, {};
    }

    /** `digest_incoming`: handle every queued inbound message in order, then clear the queue. */
    method DigestIncoming(resolve: Resolver, write: Writer)
      requires Valid()
      modifies this
      ensures Valid()
      ensures State() == Digested(old(State()), resolve, write)
    {
      ghost var s0 := State();
      var msgs := incoming;
      var i := 0;
      while i < |msgs|
        invariant 0 <= i <= |msgs|
        invariant Valid() && incoming == msgs
        invariant Digest(State(), msgs[i..], i, resolve, write) == Digest(s0, msgs, 0, resolve, write)
      {
        DigestMessage(msgs[i], i, resolve, write);
        assert msgs[i..][1..] == msgs[i + 1..];
        i := i + 1;
      }
      incoming := [];
    }

    /** One pass of the `digest_incoming` loop: the k-th message of the queue. */
    method DigestMessage(m: Message, k: nat, resolve: Resolver, write: Writer)
      requires Valid()
      modifies this
      ensures Valid()
      ensures State() == DigestOne(old(State()), m, k, resolve, write)
    {
      DigestOneKeepsWf(State(), m, k, resolve, write);
      match m {
        case Connect(id, addr, _) =>
          var sock := nextSock;
          nextSock := nextSock + 1;
          var ip := resolve(addr);
          if ip.None? {
            outgoing := outgoing + [Status(id, FAILURE)];
          } else {
            connecting := connecting[id := Stream(id, sock)];
            socketToSid := socketToSid[sock := id];
          }
        case Sync(id, data) =>
          if id in streams {
            var ok, _ := streams[id].Send(data, WriterAt(write, k));
            if !ok {
              outgoing := outgoing + [Status(id, FAILURE)];
            }
          }
        case _ =>
      }
    }

    /**
     * The exchange with the session at the top of each engine iteration. It
     * stops when the session has no `running` flag; otherwise it takes the
     * session's inbound queue, hands over its own outbound queue, adopts the
     * session's `running` flag and bumps the heartbeat counter.
     */
    method Exchange(session: SessionQueue.Session) returns (live: bool)
      requires Valid() && session.Valid()
      requires session.running.Some? ==> session.initialised
      modifies this, session
      ensures Valid() && session.Valid()
      ensures live <==> old(session.running).Some?
      ensures !live ==> unchanged(this) && unchanged(session)
      ensures live ==>
        && State() == old(State()).(incoming := old(incoming) + old(session.incoming),
                                    outgoing := [], running := old(session.running).value)
        && session.incoming == [] && session.outgoing == old(session.outgoing) + old(outgoing)
        && session.control == old(session.control) + 1
        && session.running == old(session.running) && session.initialised == old(session.initialised)
        && session.iSeq == old(session.iSeq) && session.oSeq == old(session.oSeq)
        && session.buffer == old(session.buffer)
        && session.taken == old(session.taken) + old(session.incoming)
        && session.accepted == old(session.accepted)
    {
      if session.running.None? {
        return false;
      }
      var inbound := session.Trade(outgoing);
      incoming := incoming + inbound;
      outgoing := [];
      running := session.running.value;
      live := true;
    }

    /**
     * The processing after `socket_select`: the ready connecting sockets,
     * then the open sockets that were ready for reading.
     */
    method PostSelect(readyConnecting: seq<Sock>, readyActive: seq<Sock>,
                      errorOf: Sock -> int, readOf: Sock -> ReadResult)
      requires Valid() && SelectResult(State(), readyConnecting, readyActive)
      modifies this
      ensures Valid()
      ensures State() == AfterSelect(old(State()), readyConnecting, readyActive, errorOf, readOf)
    {
      WfActiveReady(State(), readyActive);
      WfConnectRoutable(State(), readyConnecting);
      ConnectLoop(readyConnecting, readyActive, errorOf);
      ReadLoop(readyActive, readOf);
    }

    /** The loop over the ready connecting sockets. */
    method ConnectLoop(readyConnecting: seq<Sock>, readyActive: seq<Sock>, errorOf: Sock -> int)
      requires Valid() && ConnectReady(State(), readyConnecting) && ActiveReady(State(), readyActive)
      modifies this
      ensures Routable(old(socketToSid), readyConnecting, old(connecting))
      ensures Valid() && ActiveReady(State(), readyActive)
      ensures State() == ConnectPhase(old(State()), readyConnecting, errorOf)
    {
      ghost var s0 := State();
      WfConnectRoutable(s0, readyConnecting);
      var i := 0;
      while i < |readyConnecting|
        invariant 0 <= i <= |readyConnecting|
        invariant Valid() && ConnectReady(State(), readyConnecting[i..]) && ActiveReady(State(), readyActive)
        invariant Routable(socketToSid, readyConnecting[i..], connecting)
        invariant ConnectPhase(State(), readyConnecting[i..], errorOf) == ConnectPhase(s0, readyConnecting, errorOf)
      {
        ConnectOneKeepsWf(State(), readyConnecting[i..], readyActive, errorOf);
        ConnectStep(readyConnecting[i], errorOf);
        assert readyConnecting[i..][1..] == readyConnecting[i + 1..];
        WfConnectRoutable(State(), readyConnecting[i + 1..]);
        i := i + 1;
      }
    }

    /** The loop over the open sockets that were ready for reading. */
    method ReadLoop(readyActive: seq<Sock>, readOf: Sock -> ReadResult)
      requires Valid() && ActiveReady(State(), readyActive)
      modifies this
      ensures Valid()
      ensures State() == ReadPhase(old(State()), readyActive, readOf)
    {
      ghost var s0 := State();
      var i := 0;
      while i < |readyActive|
        invariant 0 <= i <= |readyActive|
        invariant Valid() && ActiveReady(State(), readyActive[i..])
        invariant ReadPhase(State(), readyActive[i..], readOf) == ReadPhase(s0, readyActive, readOf)
      {
        ReadOneKeepsWf(State(), readyActive[i..], readOf);
        ReadStep(readyActive[i], readOf);
        assert readyActive[i..][1..] == readyActive[i + 1..];
        i := i + 1;
      }
    }

    /** One pass of the connect loop: report the ready socket's error, then open or close it. */
    method ConnectStep(sock: Sock, errorOf: Sock -> int)
      requires sock in socketToSid && socketToSid[sock] in connecting
      modifies this
      ensures State() == ConnectOne(old(State()), sock, errorOf)
    {
      var sid := socketToSid[sock];
      var error := errorOf(sock);
      outgoing := outgoing + [Status(sid, error)];
      if error == 0 {
        streams := streams[sid := connecting[sid]];
      } else {
        closed := closed + {sock};
      }
      connecting := connecting - {sid};
    }

    /** One pass of the read loop: forward what was read, or report and retire the socket. */
    method ReadStep(sock: Sock, readOf: Sock -> ReadResult)
      requires sock in socketToSid && socketToSid[sock] in streams
      modifies this
      ensures State() == ReadOne(old(State()), sock, readOf)
    {
      var sid := socketToSid[sock];
      var data := readOf(streams[sid].sock);
      if ReadFails(data) {
        outgoing := outgoing + [Status(sid, FAILURE)];
        closed := closed + {sock};
        streams := streams - {sid};
        socketToSid := socketToSid - {sock};
      } else {
        outgoing := outgoing + [Sync(sid, data.data)];
      }
    }
  }
}
