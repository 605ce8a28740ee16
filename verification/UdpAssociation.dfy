/** The SOCKS5 UDP association: one socket per destination, looked up and registered under a lock,
    dialled outside it, evicted when there are too many, and torn down while readers still run. */
module UdpAssociation {
  import opened Wrappers
  import opened Bytes

  const MAX_UDP_SESSIONS := 512

  /** A datagram's source, its host in canonical form. */
  datatype Addr = Addr(ip: string, port: Uint16)

  class Session {
    const rawAddr: seq<Byte>
    var lastUsed: int

    constructor (rawAddr: seq<Byte>, now: int)
      ensures this.rawAddr == rawAddr && lastUsed == now
    {
      this.rawAddr, lastUsed := rawAddr, now;
    }
  }

  // The state machine: every step is one lock-held region, or a goroutine's exit.

  /** A reader goroutine that has not yet told the wait group it is done. */
  datatype Reader = Reader(key: string, dropped: bool)

  /** `known` are the sessions ever registered; `readers` those whose goroutine is unfinished. */
  datatype State = State(
    closed: bool,
    sessions: map<string, Session>,
    lastUsed: map<Session, int>,
    client: Option<Addr>,
    waiting: int,
    readers: map<Session, Reader>,
    known: set<Session>)

  datatype Step =
    | Accept(peerIP: string, addr: Addr, ok: bool)
    | Lookup(key: string, now: int, found: Option<Session>)
    | Commit(key: string, s: Session, created: int, now: int, evicted: Option<string>, result: Option<Session>)
    | Drop(key: string, s: Session)
    | ReaderDone(s: Session)
    | Close
    | Waited

  ghost predicate Init(st: State) {
    st == State(false, map[], map[], None, 0, map[], {})
  }

  /** `key` is a least recently used session. */
  ghost predicate IsOldest(st: State, key: string) {
    && key in st.sessions && st.sessions[key] in st.lastUsed
    && forall k :: k in st.sessions && st.sessions[k] in st.lastUsed ==> st.lastUsed[st.sessions[key]] <= st.lastUsed[st.sessions[k]]
  }

  function WithoutKey(m: map<string, Session>, key: string): map<string, Session> {
    map k | k in m && k != key :: m[k]
  }

  function Forget(m: map<Session, int>, s: Session): map<Session, int> {
    map x | x in m && x != s :: m[x]
  }

  function Evict(st: State, key: string): State
    requires key in st.sessions
  {
    st.(sessions := WithoutKey(st.sessions, key), lastUsed := Forget(st.lastUsed, st.sessions[key]))
  }

  function Register(st: State, key: string, s: Session, created: int): State {
    st.(sessions := st.sessions[key := s], lastUsed := st.lastUsed[s := created], waiting := st.waiting + 1,
        readers := st.readers[s := Reader(key, false)], known := st.known + {s})
  }

  ghost predicate Next(st: State, step: Step, st': State) {
    match step
    case Accept(peerIP, addr, ok) =>
      if st.client.None? then
        if peerIP != "" && addr.ip != peerIP then !ok && st' == st else ok && st' == st.(client := Some(addr))
      else ok == (addr == st.client.value) && st' == st
    case Lookup(key, now, found) =>
      if !st.closed && key in st.sessions then
        found == Some(st.sessions[key]) && st' == st.(lastUsed := st.lastUsed[st.sessions[key] := now])
      else found == None && st' == st
    case Commit(key, s, created, now, evicted, result) =>
      && s !in st.known
      && if st.closed then evicted == None && result == None && st' == st
         else if key in st.sessions then
           && evicted == None && result == Some(st.sessions[key])
           && st' == st.(lastUsed := st.lastUsed[st.sessions[key] := now])
         else
           && result == Some(s)
           && if |st.sessions| < MAX_UDP_SESSIONS then evicted == None && st' == Register(st, key, s, created)
              else evicted.Some? && IsOldest(st, evicted.value) && st' == Register(Evict(st, evicted.value), key, s, created)
    case Drop(key, s) =>
      && s in st.readers && st.readers[s] == Reader(key, false)
      && var marked := st.(readers := st.readers[s := Reader(key, true)]);
         st' == if key in st.sessions && st.sessions[key] == s then Evict(marked, key) else marked
    case ReaderDone(s) =>
      && s in st.readers && st.readers[s].dropped
      && st' == st.(waiting := st.waiting - 1, readers := map x | x in st.readers && x != s :: st.readers[x])
    case Close => st' == st.(closed := true, sessions := map[], lastUsed := map[])
    case Waited => st.closed && st.waiting == 0 && st' == st
  }

  ghost predicate Counted(st: State) {
    |st.sessions| <= MAX_UDP_SESSIONS && st.waiting == |st.readers|
  }

  ghost predicate Consistent(st: State) {
    && (st.closed ==> st.sessions == map[])
    && st.readers.Keys <= st.known
    && (forall k :: k in st.sessions ==> HasLiveReader(st, k))
    && (forall s :: s in st.lastUsed ==> IsRegistered(st, s))
  }

  /** What every reachable state satisfies. */
  ghost predicate Inv(st: State) {
    Counted(st) && Consistent(st)
  }

  /** The session registered under `key` has a running reader, started for that key, and a time of last use. */
  ghost predicate HasLiveReader(st: State, key: string)
    requires key in st.sessions
  {
    var s := st.sessions[key];
    s in st.readers && st.readers[s] == Reader(key, false) && s in st.lastUsed
  }

  ghost predicate IsRegistered(st: State, s: Session) {
    s in st.readers && st.readers[s].key in st.sessions && st.sessions[st.readers[s].key] == s
  }

  lemma InitInv(st: State)
    requires Init(st)
    ensures Inv(st)
  {
  }

  lemma WithoutKeySize(m: map<string, Session>, key: string)
    requires key in m
    ensures |WithoutKey(m, key)| == |m| - 1
  {
    assert WithoutKey(m, key).Keys == m.Keys - {key};
  }

  lemma EvictInv(st: State, key: string)
    requires Inv(st) && key in st.sessions
    ensures Inv(Evict(st, key)) && |Evict(st, key).sessions| == |st.sessions| - 1
  {
    WithoutKeySize(st.sessions, key);
    assert HasLiveReader(st, key);
    forall k | k in st.sessions && k != key
      ensures st.sessions[k] != st.sessions[key]
    {
      assert HasLiveReader(st, k);
    }
    var st' := Evict(st, key);
    forall k | k in st'.sessions ensures HasLiveReader(st', k) {
      assert HasLiveReader(st, k);
    }
    assert forall s :: s in st'.lastUsed ==> IsRegistered(st, s) && IsRegistered(st', s);
  }

  lemma AddedSize<K, V>(m: map<K, V>, k: K, v: V)
    requires k !in m
    ensures |m[k := v]| == |m| + 1 && m[k := v].Keys == m.Keys + {k}
  {
  }

  lemma RegisterInv(st: State, key: string, s: Session, created: int)
    requires Inv(st) && !st.closed && s !in st.known && key !in st.sessions && |st.sessions| < MAX_UDP_SESSIONS
    ensures Inv(Register(st, key, s, created))
  {
    AddedSize(st.sessions, key, s);
    AddedSize(st.readers, s, Reader(key, false));
    RegisterStaysConsistent(st, key, s, created);
    hide Consistent;
  }

  lemma RegisterStaysConsistent(st: State, key: string, s: Session, created: int)
    requires Inv(st) && !st.closed && s !in st.known && key !in st.sessions
    ensures Consistent(Register(st, key, s, created))
  {
  }

  lemma TouchInv(st: State, key: string, now: int)
    requires Inv(st) && key in st.sessions
    ensures Inv(st.(lastUsed := st.lastUsed[st.sessions[key] := now]))
  {
  }

  lemma DropInv(st: State, key: string, s: Session, st': State)
    requires Inv(st) && Next(st, Drop(key, s), st')
    ensures Inv(st')
  {
    var base := if key in st.sessions && st.sessions[key] == s then Evict(st, key) else st;
    if key in st.sessions && st.sessions[key] == s {
      EvictInv(st, key);
    }
    assert st' == base.(readers := st.readers[s := Reader(key, true)]);
    assert st'.readers.Keys == st.readers.Keys;
    forall k | k in st'.sessions ensures HasLiveReader(st', k) {
      assert HasLiveReader(base, k);
    }
  }

  lemma DoneInv(st: State, s: Session, st': State)
    requires Inv(st) && Next(st, ReaderDone(s), st')
    ensures Inv(st')
  {
    assert st'.readers.Keys == st.readers.Keys - {s};
    forall k | k in st'.sessions ensures HasLiveReader(st', k) {
      assert HasLiveReader(st, k);
    }
  }

  /** Every step keeps the invariant. */
  lemma NextInv(st: State, step: Step, st': State)
    requires Inv(st) && Next(st, step, st')
    ensures Inv(st')
  {
    match step
    case Accept(_, _, _) =>
      forall k | k in st'.sessions ensures HasLiveReader(st', k) {
        assert HasLiveReader(st, k);
      }
    case Lookup(key, now, _) =>
      if !st.closed && key in st.sessions {
        TouchInv(st, key, now);
      }
    case Commit(key, s, created, now, evicted, _) =>
      if !st.closed && key in st.sessions {
        TouchInv(st, key, now);
      } else if !st.closed {
        if evicted.Some? {
          EvictInv(st, evicted.value);
          RegisterInv(Evict(st, evicted.value), key, s, created);
        } else {
          RegisterInv(st, key, s, created);
        }
      }
    case Drop(key, s) => DropInv(st, key, s, st');
    case ReaderDone(s) => DoneInv(st, s, st');
    case Close =>
    case Waited =>
  }

  // Whole runs, in any interleaving.

  ghost predicate IsRun(sts: seq<State>, steps: seq<Step>) {
    && |sts| == |steps| + 1
    && Init(sts[0])
    && forall i :: 0 <= i < |steps| ==> Next(sts[i], steps[i], sts[i + 1])
  }

  /** In every reachable state at most 512 sessions are registered, each under a key whose reader is
      still running for it, and the wait group counts exactly the unfinished readers. */
  lemma {:induction false} RunInv(sts: seq<State>, steps: seq<Step>, i: nat)
    requires IsRun(sts, steps) && i < |sts|
    ensures Inv(sts[i])
  {
    if i == 0 {
      InitInv(sts[0]);
    } else {
      RunInv(sts, steps, i - 1);
      NextInv(sts[i - 1], steps[i - 1], sts[i]);
    }
  }

  /** Once closed, always closed: no session is registered, nothing joins the wait group, and no
      reader starts, in any later state. */
  lemma {:induction false} NothingAfterClose(sts: seq<State>, steps: seq<Step>, i: nat, j: nat)
    requires IsRun(sts, steps) && i <= j < |sts| && sts[i].closed
    ensures sts[j].closed && sts[j].sessions == map[]
    ensures sts[j].waiting <= sts[i].waiting && sts[j].readers.Keys <= sts[i].readers.Keys
    decreases j
  {
    RunInv(sts, steps, j);
    hide Next, Inv, Init;
    if i < j {
      NothingAfterClose(sts, steps, i, j - 1);
      assert Next(sts[j - 1], steps[j - 1], sts[j]);
      ClosedStep(sts[j - 1], steps[j - 1], sts[j]);
    }
    ClosedIsEmpty(sts[j]);
  }

  lemma ClosedIsEmpty(st: State)
    requires Inv(st) && st.closed
    ensures st.sessions == map[]
  {
  }

  lemma ClosedStep(st: State, step: Step, st': State)
    requires st.closed && Next(st, step, st')
    ensures st'.closed && st'.waiting <= st.waiting && st'.readers.Keys <= st.readers.Keys
  {
    hide Register, IsOldest;
  }

  /** When the wait in `close` returns, every reader has finished, and none ever runs again. */
  lemma CloseLeavesNothing(sts: seq<State>, steps: seq<Step>, i: nat, j: nat)
    requires IsRun(sts, steps) && i < |steps| && i <= j < |sts| && steps[i] == Waited
    ensures sts[j].readers == map[] && sts[j].sessions == map[] && sts[j].waiting == 0
  {
    assert Next(sts[i], steps[i], sts[i + 1]);
    RunInv(sts, steps, i);
    NothingAfterClose(sts, steps, i, j);
    RunInv(sts, steps, j);
    assert sts[i].readers.Keys == {};
    assert sts[j].readers.Keys == {};
  }

  /** A session leaves the table in three ways only: its own reader exits, it is the least recently
      used one of a full table, or the association closes. A late exit removes no replacement. */
  lemma SessionsLeaveOnlyFor(st: State, step: Step, st': State, key: string)
    requires Inv(st) && Next(st, step, st')
    requires key in st.sessions && !(key in st'.sessions && st'.sessions[key] == st.sessions[key])
    ensures || step == Drop(key, st.sessions[key])
            || (step.Commit? && step.evicted == Some(key) && |st.sessions| == MAX_UDP_SESSIONS && IsOldest(st, key))
            || step == Close
  {
  }

  /** The client address, once pinned, never changes. */
  lemma {:induction false} PinnedStaysPinned(sts: seq<State>, steps: seq<Step>, i: nat, j: nat)
    requires IsRun(sts, steps) && i <= j < |sts| && sts[i].client.Some?
    ensures sts[j].client == sts[i].client
    decreases j
  {
    if i < j {
      PinnedStaysPinned(sts, steps, i, j - 1);
      assert Next(sts[j - 1], steps[j - 1], sts[j]);
    }
  }

  /** All datagrams accepted in a run come from one address, which has the peer's host if one is required. */
  lemma OneClient(sts: seq<State>, steps: seq<Step>, i: nat, j: nat, peerIP: string)
    requires IsRun(sts, steps) && i <= j < |steps|
    requires forall k :: 0 <= k < |steps| && steps[k].Accept? ==> steps[k].peerIP == peerIP
    requires steps[i].Accept? && steps[i].ok && steps[j].Accept? && steps[j].ok
    ensures steps[i].addr == steps[j].addr && (peerIP != "" ==> steps[i].addr.ip == peerIP)
  {
    AcceptedIsPinned(sts, steps, i);
    AcceptedIsPinned(sts, steps, j);
    PinnedStaysPinned(sts, steps, i + 1, j + 1);
    if peerIP != "" {
      PinnedIsPeer(sts, steps, i + 1, peerIP);
    }
  }

  lemma AcceptedIsPinned(sts: seq<State>, steps: seq<Step>, i: nat)
    requires IsRun(sts, steps) && i < |steps| && steps[i].Accept? && steps[i].ok
    ensures sts[i + 1].client == Some(steps[i].addr)
  {
  }

  lemma {:induction false} PinnedIsPeer(sts: seq<State>, steps: seq<Step>, i: nat, peerIP: string)
    requires IsRun(sts, steps) && i < |sts| && peerIP != "" && sts[i].client.Some?
    requires forall k :: 0 <= k < |steps| && steps[k].Accept? ==> steps[k].peerIP == peerIP
    ensures sts[i].client.value.ip == peerIP
  {
    assert Next(sts[i - 1], steps[i - 1], sts[i]);
    if sts[i - 1].client.Some? {
      PinnedIsPeer(sts, steps, i - 1, peerIP);
    }
  }

  /** Eviction makes room, and only where there was none. */
  lemma RoomMade(st: State, evicted: Option<string>)
    requires Inv(st) && (|st.sessions| >= MAX_UDP_SESSIONS ==> evicted.Some? && evicted.value in st.sessions)
    ensures |st.sessions| >= MAX_UDP_SESSIONS ==> |Evict(st, evicted.value).sessions| < MAX_UDP_SESSIONS
  {
    if |st.sessions| >= MAX_UDP_SESSIONS {
      EvictInv(st, evicted.value);
    }
  }

  // The association itself: one method for each lock-held region.

  class Association {
    const peerIP: string
    var closed: bool
    /** None is the nil map that `close` leaves behind; storing into it would panic. */
    var sessions: Option<map<string, Session>>
    var clientAddr: Option<Addr>
    var wg: int
    ghost var readers: map<Session, Reader>
    ghost var known: set<Session>

    ghost function Table(): map<string, Session>
      reads this
    {
      if sessions.Some? then sessions.value else map[]
    }

    ghost function Times(): map<Session, int>
      reads this, Table().Values
    {
      map s | s in Table().Values :: s.lastUsed
    }

    ghost function View(): State
      reads this, Table().Values
    {
      State(closed, Table(), Times(), clientAddr, wg, readers, known)
    }

    ghost predicate Valid()
      reads this, Table().Values
    {
      Inv(View()) && (closed <==> sessions.None?)
    }

    constructor (peerIP: string)
      ensures this.peerIP == peerIP && Init(View()) && Valid()
    {
      this.peerIP := peerIP;
      closed, sessions, clientAddr, wg := false, Some(map[]), None, 0;
      readers, known := map[], {};
    }

    /** Pin the association to the first source it hears from. */
    method AcceptFrom(addr: Addr) returns (ok: bool)
      requires Valid()
      modifies this`clientAddr
      ensures Next(old(View()), Accept(peerIP, addr, ok), View()) && Valid()
    {
      if clientAddr.None? {
        if peerIP != "" && addr.ip != peerIP {
          return false;
        }
        clientAddr := Some(addr);
        NextInv(old(View()), Accept(peerIP, addr, true), View());
        return true;
      }
      return addr == clientAddr.value;
    }

    /** The first lock-held region of `session`: an existing socket, if there is one. */
    method Lookup(key: string, now: int) returns (found: Option<Session>)
      requires Valid()
      modifies Table().Values
      ensures Next(old(View()), Step.Lookup(key, now, found), View()) && Valid()
    {
      if closed {
        return None;
      }
      if key in sessions.value {
        var s := sessions.value[key];
        s.lastUsed := now;
        assert Times() == old(Times())[s := now];
        NextInv(old(View()), Step.Lookup(key, now, Some(s)), View());
        return Some(s);
      }
      return None;
    }

    /** Remove one key, and with it the only registration of its session. */
    method Delete(key: string)
      requires Valid() && sessions.Some? && key in sessions.value
      modifies this`sessions
      ensures View() == Evict(old(View()), key) && sessions.Some? && Valid()
    {
      hide Inv;
      EvictInv(View(), key);
      EvictedTimes(View(), key);
      ghost var target := Evict(View(), key);
      sessions := Some(WithoutKey(sessions.value, key));
      assert Times() == target.lastUsed;
      assert View() == target;
    }

    /** Drop a least recently used session when the table is full. */
    method EvictLockedIfFull() returns (evicted: Option<Session>, ghost evictedKey: Option<string>)
      requires Valid() && !closed
      modifies this`sessions
      ensures Valid() && sessions.Some?
      ensures |old(Table())| < MAX_UDP_SESSIONS ==> evicted == None && evictedKey == None && View() == old(View())
      ensures |old(Table())| >= MAX_UDP_SESSIONS ==>
        && evictedKey.Some? && IsOldest(old(View()), evictedKey.value)
        && evicted == Some(old(Table())[evictedKey.value])
        && View() == Evict(old(View()), evictedKey.value)
    {
      hide Inv;
      var table := sessions.value;
      if |table| < MAX_UDP_SESSIONS {
        return None, None;
      }
      var oldest := Oldest(table);
      evicted, evictedKey := Some(table[oldest]), Some(oldest);
      assert IsOldest(View(), oldest);
      Delete(oldest);
    }

    /** Store a new session under a free key. */
    method Put(key: string, s: Session)
      requires sessions.Some? && key !in sessions.value
      modifies this`sessions
      ensures sessions == Some(old(sessions).value[key := s]) && Times() == old(Times())[s := s.lastUsed]
    {
      AddedValue(sessions.value, key, s);
      sessions := Some(sessions.value[key := s]);
      assert Times().Keys == old(Times()).Keys + {s};
    }

    /** Store a new session and count its reader. */
    method Store(key: string, s: Session)
      requires Valid() && sessions.Some? && key !in sessions.value && s !in known && |sessions.value| < MAX_UDP_SESSIONS
      modifies this`sessions, this`wg, this`readers, this`known
      ensures View() == Register(old(View()), key, s, s.lastUsed) && Valid()
    {
      hide Inv;
      RegisterInv(View(), key, s, s.lastUsed);
      Put(key, s);
      wg := wg + 1;
      readers, known := readers[s := Reader(key, false)], known + {s};
    }

    /** Walk the table, in whatever order it comes, for a session used no later than any other. */
    method Oldest(table: map<string, Session>) returns (oldestKey: string)
      requires table != map[]
      ensures oldestKey in table && forall k :: k in table ==> table[oldestKey].lastUsed <= table[k].lastUsed
    {
      var rest := table.Keys;
      var oldest: Option<Session> := None;
      oldestKey := "";
      while rest != {}
        invariant rest <= table.Keys
        invariant oldest.None? ==> rest == table.Keys
        invariant oldest.Some? ==> oldestKey in table && oldest.value == table[oldestKey]
        invariant oldest.Some? ==> forall k :: k in table && k !in rest ==> oldest.value.lastUsed <= table[k].lastUsed
        decreases |rest|
      {
        var k :| k in rest;
        var s := table[k];
        if oldest.None? || s.lastUsed < oldest.value.lastUsed {
          oldestKey, oldest := k, Some(s);
        }
        rest := rest - {k};
      }
    }

    /** The second lock-held region of `session`: register the dialled socket `s`, unless the
        association closed or another datagram registered one meanwhile. */
    method Commit(key: string, s: Session, now: int)
      returns (result: Option<Session>, evicted: Option<Session>, ghost evictedKey: Option<string>)
      requires Valid() && s !in known && s !in Table().Values
      modifies this, Table().Values
      ensures Next(old(View()), Step.Commit(key, s, old(s.lastUsed), now, evictedKey, result), View()) && Valid()
      ensures evicted == if evictedKey.None? then None else Some(old(Table())[evictedKey.value])
    {
      hide Inv;
      evicted, evictedKey := None, None;
      if closed {
        return None, None, None;
      }
      if key in sessions.value {
        var existing := sessions.value[key];
        existing.lastUsed := now;
        assert Times() == old(Times())[existing := now];
        NextInv(old(View()), Step.Commit(key, s, old(s.lastUsed), now, None, Some(existing)), View());
        return Some(existing), None, None;
      }
      evicted, evictedKey := EvictLockedIfFull();
      RoomMade(old(View()), evictedKey);
      Store(key, s);
      result := Some(s);
    }

    /** A reader's exit: its key leaves the table unless another session has taken the key over. */
    method DropSession(key: string, s: Session)
      requires Valid() && s in readers && readers[s] == Reader(key, false)
      modifies this`sessions, this`readers
      ensures Next(old(View()), Drop(key, s), View()) && Valid()
    {
      hide Inv;
      if sessions.Some? && key in sessions.value && sessions.value[key] == s {
        Delete(key);
      }
      readers := readers[s := Reader(key, true)];
      NextInv(old(View()), Drop(key, s), View());
    }

    /** `wg.Done`, after the reader has dropped its session. */
    method Done(s: Session)
      requires Valid() && s in readers && readers[s].dropped
      modifies this`wg, this`readers
      ensures Next(old(View()), ReaderDone(s), View()) && Valid()
    {
      wg := wg - 1;
      readers := map x | x in readers && x != s :: readers[x];
      NextInv(old(View()), ReaderDone(s), View());
    }

    /** Mark the association closed and hand back the sockets to close. */
    method BeginClose() returns (toClose: set<Session>)
      requires Valid()
      modifies this`closed, this`sessions
      ensures Next(old(View()), Step.Close, View()) && Valid()
      ensures toClose == old(Table()).Values
    {
      toClose := if sessions.Some? then sessions.value.Values else {};
      closed := true;
      sessions := None;
      assert Times() == map[];
      NextInv(old(View()), Step.Close, View());
    }
  }

  lemma AddedValue(m: map<string, Session>, key: string, s: Session)
    requires key !in m
    ensures m[key := s].Values == m.Values + {s}
  {
    var m' := m[key := s];
    forall x | x in m.Values + {s} ensures x in m'.Values {
      if x == s {
        assert m'[key] == x;
      } else {
        var k :| k in m && m[k] == x;
        assert m'[k] == x;
      }
    }
  }

  /** A registered session has only one key, so removing the key removes just that session. */
  lemma EvictedTimes(st: State, key: string)
    requires Inv(st) && key in st.sessions
    ensures WithoutKey(st.sessions, key).Values == st.sessions.Values - {st.sessions[key]}
  {
    assert forall k :: k in st.sessions ==> HasLiveReader(st, k);
    forall x | x in st.sessions.Values - {st.sessions[key]} ensures x in WithoutKey(st.sessions, key).Values {
      var k :| k in st.sessions && st.sessions[k] == x;
      assert k in WithoutKey(st.sessions, key) && WithoutKey(st.sessions, key)[k] == x;
    }
  }
}
