/** The category cache: a list is re-read when its file's modification time changed, and that time
    is looked at no more than once a minute. Calls run concurrently and hold the lock only in
    parts; the file is replaced at any time. How old can an answer be? */
module DomainCache {
  import opened Wrappers

  /** Sixty seconds, in nanoseconds. */
  const CHECK_INTERVAL := 60_000_000_000

  /** The modification time of an entry made for a missing file. */
  const NO_MTIME := 0

  /** The domains a list holds; a missing file holds none. */
  type Domains = set<string>

  const NOTHING: Domains := {}

  datatype CacheEntry = CacheEntry(mtime: int, domains: Domains, checked: int)

  datatype File = File(mtime: int, contents: Domains)

  /** The first locked region: a recently checked entry is the answer. */
  function Hit(entry: Option<CacheEntry>, now: int): Option<Domains> {
    if entry.Some? && now - entry.value.checked < CHECK_INTERVAL then Some(entry.value.domains) else None
  }

  /** The second locked region: an entry for the file's current modification time still holds. */
  predicate Unchanged(entry: Option<CacheEntry>, mtime: int) {
    entry.Some? && entry.value.mtime == mtime
  }

  // One category's cache entry, its file, and any number of calls in progress.

  /** Where a call stands: `t` is the time it started. */
  datatype Call =
    | Checking(t: int)
    | Missing(t: int)
    | Found(t: int, mtime: int)
    | Loading(t: int, mtime: int)
    | Loaded(t: int, mtime: int, contents: Domains)
    | Returned(t: int, answer: Domains)

  /** `seen` records the contents the category had at every instant so far; `versions` and `retired`
      record which contents each modification time stood for, and when it was replaced. */
  datatype State = State(
    clock: int,
    file: Option<File>,
    entry: Option<CacheEntry>,
    calls: map<nat, Call>,
    seen: set<(int, Domains)>,
    versions: map<int, Domains>,
    retired: map<int, int>)

  datatype Step =
    | Tick(clock: int)
    | Replace(file: File)
    | Remove
    | Begin(c: nat)
    | Stat(c: nat)
    | StoreMissing(c: nat)
    | Revalidate(c: nat)
    | Load(c: nat)
    | StoreLoaded(c: nat)

  /** What is in force now: the file's contents, or nothing when there is no file. */
  function Current(st: State): Domains {
    if st.file.Some? then st.file.value.contents else NOTHING
  }

  /** `st'` with its present contents added to the record. */
  ghost function Observe(st: State): State {
    st.(seen := st.seen + {(st.clock, Current(st))})
  }

  ghost function Retire(st: State): State {
    if st.file.Some? then st.(retired := st.retired[st.file.value.mtime := st.clock]) else st
  }

  ghost predicate Init(st: State) {
    && st.entry.None? && st.calls == map[] && st.retired == map[]
    && (match st.file
        case None => st.versions == map[]
        case Some(f) => f.mtime != NO_MTIME && st.versions == map[f.mtime := f.contents])
    && st.seen == {(st.clock, Current(st))}
  }

  function At(st: State, c: nat, call: Call): State {
    st.(calls := st.calls[c := call])
  }

  ghost predicate Next(st: State, step: Step, st': State) {
    match step
    case Tick(clock) => clock >= st.clock && st' == Observe(st.(clock := clock))
    case Replace(f) =>
      && f.mtime != NO_MTIME && f.mtime !in st.versions
      && st' == Observe(Retire(st).(file := Some(f), versions := st.versions[f.mtime := f.contents]))
    case Remove => st.file.Some? && st' == Observe(Retire(st).(file := None))
    case Begin(c) =>
      && c !in st.calls
      && st' == At(st, c, match Hit(st.entry, st.clock) case Some(x) => Returned(st.clock, x) case None => Checking(st.clock))
    case Stat(c) =>
      && c in st.calls && st.calls[c].Checking?
      && st' == At(st, c, if st.file.Some? then Found(st.calls[c].t, st.file.value.mtime) else Missing(st.calls[c].t))
    case StoreMissing(c) =>
      && c in st.calls && st.calls[c].Missing?
      && st' == At(st.(entry := Some(CacheEntry(NO_MTIME, NOTHING, st.calls[c].t))), c, Returned(st.calls[c].t, NOTHING))
    case Revalidate(c) =>
      && c in st.calls && st.calls[c].Found?
      && var t, m := st.calls[c].t, st.calls[c].mtime;
         st' == if Unchanged(st.entry, m)
                then At(st.(entry := Some(st.entry.value.(checked := t))), c, Returned(t, st.entry.value.domains))
                else At(st, c, Loading(t, m))
    case Load(c) =>
      && c in st.calls && st.calls[c].Loading?
      && st' == At(st, c, Loaded(st.calls[c].t, st.calls[c].mtime, Current(st)))
    case StoreLoaded(c) =>
      && c in st.calls && st.calls[c].Loaded?
      && var call := st.calls[c];
         st' == At(st.(entry := Some(CacheEntry(call.mtime, call.contents, call.t))), c, Returned(call.t, call.contents))
  }

  // The code: each method is one locked region, and takes the machine one step.

  class Store {
    var cache: map<string, CacheEntry>

    constructor ()
      ensures cache == map[]
    {
      cache := map[];
    }

    function Entry(name: string): Option<CacheEntry>
      reads this
    {
      if name in cache then Some(cache[name]) else None
    }

    /** A recently checked entry is the answer. */
    method Lookup(name: string, now: int, ghost st: State, ghost c: nat)
      returns (hit: Option<Domains>, ghost st': State)
      requires st.entry == Entry(name) && st.clock == now && c !in st.calls
      ensures hit == Hit(Entry(name), now)
      ensures Next(st, Begin(c), st') && st'.entry == Entry(name)
      ensures st'.calls[c] == if hit.Some? then Returned(now, hit.value) else Checking(now)
    {
      var entry := Entry(name);
      if entry.Some? && now - entry.value.checked < CHECK_INTERVAL {
        return Some(entry.value.domains), At(st, c, Returned(now, entry.value.domains));
      }
      return None, At(st, c, Checking(now));
    }

    /** There is no file: remember that. */
    method PutMissing(name: string, now: int, ghost st: State, ghost c: nat) returns (answer: Domains, ghost st': State)
      requires st.entry == Entry(name) && c in st.calls && st.calls[c] == Missing(now)
      modifies this
      ensures Next(st, StoreMissing(c), st') && st'.entry == Entry(name) && st'.calls[c] == Returned(now, answer)
      ensures cache.Keys == old(cache).Keys + {name} && forall k :: k in old(cache) && k != name ==>
        cache[k] == old(cache)[k]
    {
      var entry := CacheEntry(NO_MTIME, NOTHING, now);
      cache := cache[name := entry];
      return NOTHING, At(st.(entry := Some(entry)), c, Returned(now, NOTHING));
    }

    /** An entry for the file's modification time still holds; note that it was checked. */
    method Revalidate(name: string, mtime: int, now: int, ghost st: State, ghost c: nat)
      returns (hit: Option<Domains>, ghost st': State)
      requires st.entry == Entry(name) && c in st.calls && st.calls[c] == Found(now, mtime)
      modifies this
      ensures Next(st, Step.Revalidate(c), st') && st'.entry == Entry(name)
      ensures st'.calls[c] == if hit.Some? then Returned(now, hit.value) else Loading(now, mtime)
      ensures cache.Keys == old(cache).Keys && forall k :: k in old(cache) && k != name ==> cache[k] == old(cache)[k]
    {
      if name in cache && cache[name].mtime == mtime {
        cache := cache[name := cache[name].(checked := now)];
        return Some(cache[name].domains), At(st.(entry := Some(cache[name])), c, Returned(now, cache[name].domains));
      }
      return None, At(st, c, Loading(now, mtime));
    }

    /** What was loaded, under the modification time seen before loading. */
    method PutLoaded(name: string, mtime: int, loaded: Domains, now: int, ghost st: State, ghost c: nat)
      returns (answer: Domains, ghost st': State)
      requires st.entry == Entry(name) && c in st.calls && st.calls[c] == Loaded(now, mtime, loaded)
      modifies this
      ensures Next(st, StoreLoaded(c), st') && st'.entry == Entry(name) && st'.calls[c] == Returned(now, answer)
      ensures cache.Keys == old(cache).Keys + {name} && forall k :: k in old(cache) && k != name ==>
        cache[k] == old(cache)[k]
    {
      var entry := CacheEntry(mtime, loaded, now);
      cache := cache[name := entry];
      return loaded, At(st.(entry := Some(entry)), c, Returned(now, loaded));
    }
  }

  // The invariant.

  /** The category had contents `x` at some instant from `from` on. */
  ghost predicate SeenSince(st: State, x: Domains, from: int) {
    exists at :: from <= at && (at, x) in st.seen
  }

  /** `x` is what modification time `m` stands for, or what was there later, after `m` was replaced. */
  ghost predicate NoOlderThan(st: State, x: Domains, m: int) {
    && m in st.versions
    && (x == st.versions[m] || (m in st.retired && SeenSince(st, x, st.retired[m])))
  }

  /** `m` was the file's modification time at some instant from `from` on. */
  ghost predicate WasCurrentSince(st: State, m: int, from: int) {
    && m in st.versions
    && exists at :: from <= at && (at, st.versions[m]) in st.seen && (m in st.retired ==> at <= st.retired[m])
  }

  ghost predicate CallInv(st: State, call: Call) {
    match call
    case Checking(t) => t <= st.clock
    case Missing(t) => SeenSince(st, NOTHING, t)
    case Found(t, m) => m != NO_MTIME && WasCurrentSince(st, m, t)
    case Loading(t, m) => t <= st.clock && m != NO_MTIME && WasCurrentSince(st, m, t)
    case Loaded(t, m, x) => m != NO_MTIME && SeenSince(st, x, t) && NoOlderThan(st, x, m)
    case Returned(t, x) => SeenSince(st, x, t - CHECK_INTERVAL + 1)
  }

  ghost predicate EntryInv(st: State, entry: CacheEntry) {
    && SeenSince(st, entry.domains, entry.checked)
    && (entry.mtime != NO_MTIME ==> NoOlderThan(st, entry.domains, entry.mtime))
  }

  ghost predicate FileInv(st: State) {
    && (st.clock, Current(st)) in st.seen
    && (forall m :: m in st.retired ==> m in st.versions && st.retired[m] <= st.clock)
    && (forall m :: m in st.versions ==> m in st.retired || (st.file.Some? && st.file.value.mtime == m))
    && (st.file.Some? ==>
          var f := st.file.value;
          f.mtime != NO_MTIME && f.mtime in st.versions && st.versions[f.mtime] == f.contents && f.mtime !in st.retired)
  }

  ghost predicate Inv(st: State) {
    && FileInv(st)
    && (st.entry.Some? ==> EntryInv(st, st.entry.value))
    && forall c :: c in st.calls ==> CallInv(st, st.calls[c])
  }

  /** What later states still say about earlier ones: the record only grows, and a modification time
      retired in between was retired no earlier than now. */
  ghost predicate Later(st: State, st': State) {
    && st.clock <= st'.clock && st.seen <= st'.seen
    && (forall m :: m in st.versions ==> m in st'.versions && st'.versions[m] == st.versions[m])
    && (forall m :: m in st.retired ==> m in st'.retired && st'.retired[m] == st.retired[m])
    && (forall m :: m in st.versions && m !in st.retired && m in st'.retired ==> st.clock <= st'.retired[m])
  }

  /** Every instant recorded is past or present. */
  ghost predicate NotAhead(st: State) {
    forall p :: p in st.seen ==> p.0 <= st.clock
  }

  lemma SeenStays(st: State, st': State, x: Domains, from: int)
    requires Later(st, st') && SeenSince(st, x, from)
    ensures SeenSince(st', x, from)
  {
  }

  lemma CallStays(st: State, st': State, call: Call)
    requires Later(st, st') && NotAhead(st) && CallInv(st, call)
    ensures CallInv(st', call)
  {
  }

  lemma NoOlderStays(st: State, st': State, x: Domains, m: int)
    requires Later(st, st') && NoOlderThan(st, x, m)
    ensures NoOlderThan(st', x, m)
  {
  }

  lemma RestStays(st: State, st': State)
    requires Later(st, st') && NotAhead(st) && Inv(st)
    ensures st.entry.Some? ==> EntryInv(st', st.entry.value)
    ensures forall c :: c in st.calls ==> CallInv(st', st.calls[c])
  {
  }

  lemma InitInv(st: State)
    requires Init(st)
    ensures Inv(st) && NotAhead(st)
  {
  }

  /** Steps of the clock and of the file. */
  lemma WorldInv(st: State, step: Step, st': State)
    requires Inv(st) && NotAhead(st) && Next(st, step, st') && (step.Tick? || step.Replace? || step.Remove?)
    ensures Inv(st') && NotAhead(st')
  {
    assert Later(st, st');
    RestStays(st, st');
  }

  /** Steps of a call: what the step establishes about the call itself and about the entry. */
  lemma StepFacts(st: State, step: Step, st': State)
    requires Inv(st) && NotAhead(st) && Next(st, step, st') && !(step.Tick? || step.Replace? || step.Remove?)
    ensures step.c in st'.calls && CallInv(st, st'.calls[step.c])
    ensures st'.entry.Some? ==> EntryInv(st, st'.entry.value)
  {
    assert (st.clock, Current(st)) in st.seen;
    if !step.Begin? {
      assert CallInv(st, st.calls[step.c]);
    }
    match step
    case Begin(c) =>
      if Hit(st.entry, st.clock).Some? {
        var at :| st.entry.value.checked <= at && (at, st.entry.value.domains) in st.seen;
      }
    case Stat(c) =>
    case StoreMissing(c) =>
      var at :| st.calls[c].t <= at && (at, NOTHING) in st.seen;
    case Revalidate(c) =>
      RevalidateFacts(st, c);
    case Load(c) => LoadFacts(st, c);
    case StoreLoaded(c) =>
      var call := st.calls[c];
      var at :| call.t <= at && (at, call.contents) in st.seen;
  }

  /** An entry for the modification time a call has just seen is as fresh as the call. */
  lemma RevalidateFacts(st: State, c: nat)
    requires c in st.calls && st.calls[c].Found?
    requires st.calls[c].mtime != NO_MTIME && WasCurrentSince(st, st.calls[c].mtime, st.calls[c].t) && NotAhead(st)
    requires st.entry.Some? ==> EntryInv(st, st.entry.value)
    ensures st.calls[c].t <= st.clock
    ensures Unchanged(st.entry, st.calls[c].mtime) ==>
      SeenSince(st, st.entry.value.domains, st.calls[c].t) && SeenSince(st, st.entry.value.domains, st.calls[c].t - CHECK_INTERVAL + 1)
  {
  }

  /** What is loaded is either what the modification time stood for or something newer. */
  lemma LoadFacts(st: State, c: nat)
    requires FileInv(st) && c in st.calls && st.calls[c].Loading?
    requires CallInv(st, st.calls[c])
    ensures SeenSince(st, Current(st), st.calls[c].t) && NoOlderThan(st, Current(st), st.calls[c].mtime)
  {
  }

  /** Every step keeps the invariant. */
  lemma NextInv(st: State, step: Step, st': State)
    requires Inv(st) && NotAhead(st) && Next(st, step, st')
    ensures Inv(st') && NotAhead(st')
  {
    if step.Tick? || step.Replace? || step.Remove? {
      WorldInv(st, step, st');
    } else {
      StepFacts(st, step, st');
      OnlyCallsAndEntryMatter(st, st', step.c);
    }
  }

  /** A call's step leaves the world alone, and the other calls. */
  lemma OnlyCallsAndEntryMatter(st: State, st': State, c: nat)
    requires Inv(st) && NotAhead(st)
    requires st' == st.(entry := st'.entry, calls := st'.calls)
    requires c in st'.calls && st'.calls == st.calls[c := st'.calls[c]] && CallInv(st, st'.calls[c])
    requires st'.entry.Some? ==> EntryInv(st, st'.entry.value)
    ensures Inv(st') && NotAhead(st')
  {
    assert Later(st, st') && Later(st', st);
    var mid := st.(entry := st'.entry, calls := st'.calls);
    forall k | k in st'.calls ensures CallInv(st', st'.calls[k]) {
      CallStays(st, st', st'.calls[k]);
    }
    if st'.entry.Some? {
      SeenStays(st, st', st'.entry.value.domains, st'.entry.value.checked);
      if st'.entry.value.mtime != NO_MTIME {
        NoOlderStays(st, st', st'.entry.value.domains, st'.entry.value.mtime);
      }
    }
  }

  // Whole runs.

  ghost predicate IsRun(sts: seq<State>, steps: seq<Step>) {
    && |sts| == |steps| + 1
    && Init(sts[0])
    && forall i :: 0 <= i < |steps| ==> Next(sts[i], steps[i], sts[i + 1])
  }

  lemma {:induction false} RunInv(sts: seq<State>, steps: seq<Step>, i: nat)
    requires IsRun(sts, steps) && i < |sts|
    ensures Inv(sts[i]) && NotAhead(sts[i])
  {
    if i == 0 {
      InitInv(sts[0]);
    } else {
      RunInv(sts, steps, i - 1);
      NextInv(sts[i - 1], steps[i - 1], sts[i]);
    }
  }

  /** The record is honest: whatever it says was in force at some instant was in force in some
      state of the run at that instant. */
  lemma {:induction false} SeenHappened(sts: seq<State>, steps: seq<Step>, j: nat, at: int, x: Domains) returns (k: nat)
    requires IsRun(sts, steps) && j < |sts| && (at, x) in sts[j].seen
    ensures k <= j && sts[k].clock == at && Current(sts[k]) == x
  {
    if j == 0 || (sts[j].clock == at && Current(sts[j]) == x) {
      k := j;
    } else {
      assert Next(sts[j - 1], steps[j - 1], sts[j]);
      k := SeenHappened(sts, steps, j - 1, at, x);
    }
  }

  /** Bounded staleness: in any interleaving of any calls with clock ticks and file replacements
      under never-reused modification times, the answer a call gives is what the category held in
      some state of the run, at an instant less than sixty seconds before the call started, or later. */
  lemma BoundedStaleness(sts: seq<State>, steps: seq<Step>, j: nat, c: nat) returns (k: nat)
    requires IsRun(sts, steps) && j < |sts| && c in sts[j].calls && sts[j].calls[c].Returned?
    ensures k <= j && Current(sts[k]) == sts[j].calls[c].answer
    ensures sts[k].clock > sts[j].calls[c].t - CHECK_INTERVAL
  {
    RunInv(sts, steps, j);
    var call := sts[j].calls[c];
    assert CallInv(sts[j], call);
    var at :| call.t - CHECK_INTERVAL + 1 <= at && (at, call.answer) in sts[j].seen;
    k := SeenHappened(sts, steps, j, at, call.answer);
  }
}
