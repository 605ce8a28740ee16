/** Gateway mode's kernel settings: saved before they are changed, put back on shutdown, with any
    read or write allowed to fail. When does a host get back exactly what it had? */
module Gateway {
  import opened Wrappers

  const IP_FORWARD := "net.ipv4.ip_forward"

  function SendRedirects(iface: string): string {
    "net.ipv4.conf." + iface + ".send_redirects"
  }

  /** Which accesses fail, counted from the first. */
  type Fate = nat -> bool

  /** The settings gateway mode changes, and what it changes each to. */
  datatype Config = Config(enabled: bool, ipForward: bool, iface: string)

  function NonBlank(ifaces: seq<string>): seq<string> {
    if ifaces == [] then []
    else NonBlank(ifaces[..|ifaces| - 1]) + (if ifaces[|ifaces| - 1] == "" then [] else [ifaces[|ifaces| - 1]])
  }

  function Interfaces(cfg: Config): seq<string> {
    NonBlank(["all", cfg.iface])
  }

  /** The value gateway mode gives a key; it never gives one key two values. */
  function Desired(key: string): string {
    if key == IP_FORWARD then "1" else "0"
  }

  /** The keys to set, in order; forwarding comes first, and an interface may repeat "all". */
  function Keys(cfg: Config): seq<string> {
    (if cfg.ipForward then [IP_FORWARD] else []) + RedirectKeys(Interfaces(cfg))
  }

  function RedirectKeys(ifaces: seq<string>): seq<string> {
    if ifaces == [] then [] else RedirectKeys(ifaces[..|ifaces| - 1]) + [SendRedirects(ifaces[|ifaces| - 1])]
  }

  /** Kernel values, what the saver remembers, how many accesses were made, and two records of the
      past: the keys lost (a failed restore left a changed value in place, and the saver forgot what
      was there before) and whether any restore reported a failure. */
  datatype World = World(
    values: map<string, string>, prior: map<string, string>, order: seq<string>, ops: nat,
    lost: set<string>, failed: bool)

  // One key.

  /** Read a key, remember it the first time, and write the new value unless it is already there.
      A key that does not exist is skipped. */
  function SetKey(w: World, fate: Fate, key: string, value: string): (World, bool) {
    var read := w.(ops := w.ops + 1);
    if fate(w.ops) then (read, false)
    else if key !in w.values then (read, true)
    else
      var saved := if key in w.prior then read else read.(prior := w.prior[key := w.values[key]], order := w.order + [key]);
      if w.values[key] == value then (saved, true)
      else
        var tried := saved.(ops := saved.ops + 1);
        if fate(saved.ops) then (tried, false) else (tried.(values := tried.values[key := value]), true)
  }

  /** Put one key back; a failed write leaves the value and, if that is not what it was, loses it. A
      key that has vanished cannot be written. */
  function RestoreKey(w: World, fate: Fate, key: string): World
    requires key in w.prior
  {
    var tried := w.(ops := w.ops + 1);
    if fate(w.ops) || key !in w.values then
      tried.(failed := true, lost := if key in w.values && w.values[key] != w.prior[key] then w.lost + {key} else w.lost)
    else tried.(values := w.values[key := w.prior[key]])
  }

  predicate Restorable(w: World) {
    forall k :: k in w.order ==> k in w.prior
  }

  /** Put the first `n` remembered keys back, the last of them first. */
  function RestoreKeys(w: World, fate: Fate, n: nat): World
    requires n <= |w.order| && Restorable(w)
    decreases n
  {
    if n == 0 then w else RestoreKeys(RestoreKey(w, fate, w.order[n - 1]), fate, n - 1)
  }

  function Restored(w: World, fate: Fate): World
    requires Restorable(w)
  {
    RestoreKeys(w, fate, |w.order|).(prior := map[], order := [])
  }

  function SetAll(w: World, fate: Fate, keys: seq<string>): (World, bool) {
    if keys == [] then (w, true)
    else
      var (before, ok) := SetAll(w, fate, keys[..|keys| - 1]);
      if !ok then (before, false) else SetKey(before, fate, keys[|keys| - 1], Desired(keys[|keys| - 1]))
  }

  // Whole runs.

  /** `ready` is that every check before the first change passes; `installed`, that nft accepts the rules. */
  datatype Event = StartEvent(ready: bool, installed: bool) | ShutdownEvent

  /** A start that gets as far as changing something and fails undoes it. */
  function AfterStart(w: World, fate: Fate, cfg: Config, ready: bool, installed: bool): World
    requires Restorable(SetAll(w, fate, Keys(cfg)).0)
  {
    if !cfg.enabled || !ready then w
    else
      var (set_, ok) := SetAll(w, fate, Keys(cfg));
      if ok && installed then set_ else Restored(set_, fate)
  }

  /** What the saver remembers is about keys that exist, each once; losses are on record. */
  ghost predicate Shape(w: World, orig: map<string, string>) {
    && w.values.Keys == orig.Keys
    && (forall k :: k in w.order <==> k in w.prior)
    && (forall k :: k in w.prior ==> k in orig)
    && (forall i, j :: 0 <= i < j < |w.order| ==> w.order[i] != w.order[j])
    && w.lost <= orig.Keys
    && (w.lost != {} ==> w.failed)
  }

  /** A key needs nothing more: it is lost, and holds the gateway's value, or it is as it was. */
  predicate Settled(w: World, orig: map<string, string>, k: string) {
    k in orig && k in w.values && if k in w.lost then w.values[k] == Desired(k) != orig[k] else w.values[k] == orig[k]
  }

  /** A key not lost is remembered as it was, or else untouched; a lost one holds the gateway's value
      and is remembered, if at all, with it. */
  predicate KeyInv(w: World, orig: map<string, string>, k: string) {
    && k in orig && k in w.values
    && (k in w.prior ==> w.prior[k] == if k in w.lost then Desired(k) else orig[k])
    && (k !in w.prior || k in w.lost ==> Settled(w, orig, k))
    && (k in w.prior ==> w.values[k] == orig[k] || w.values[k] == Desired(k))
  }

  /** `orig` is what the host had before the first start. */
  ghost predicate Inv(w: World, orig: map<string, string>) {
    Shape(w, orig) && forall k :: k in orig ==> KeyInv(w, orig, k)
  }

  lemma SetKeyInv(w: World, fate: Fate, key: string, orig: map<string, string>)
    requires Inv(w, orig)
    ensures Inv(SetKey(w, fate, key, Desired(key)).0, orig) && SetKey(w, fate, key, Desired(key)).0.lost == w.lost
  {
    hide SetKey, KeyInv, Shape;
    SetKeyShape(w, fate, key, orig);
    forall k | k in orig ensures KeyInv(SetKey(w, fate, key, Desired(key)).0, orig, k) {
      SetKeyOne(w, fate, key, orig, k);
    }
  }

  lemma SetKeyOne(w: World, fate: Fate, key: string, orig: map<string, string>, k: string)
    requires KeyInv(w, orig, k)
    ensures KeyInv(SetKey(w, fate, key, Desired(key)).0, orig, k)
  {
    hide Desired;
  }

  lemma SetKeyShape(w: World, fate: Fate, key: string, orig: map<string, string>)
    requires Shape(w, orig)
    ensures Shape(SetKey(w, fate, key, Desired(key)).0, orig) && SetKey(w, fate, key, Desired(key)).0.lost == w.lost
  {
    var w' := SetKey(w, fate, key, Desired(key)).0;
    SetKeyParts(w, fate, key);
    hide SetKey, Desired;
    if w'.order != w.order {
      assert forall k :: k in w'.prior <==> k in w.prior || k == key;
    }
  }

  /** Setting a key changes no other value, and remembers at most that one key. */
  lemma SetKeyParts(w: World, fate: Fate, key: string)
    ensures var w' := SetKey(w, fate, key, Desired(key)).0;
            && w'.values.Keys == w.values.Keys && w'.lost == w.lost && w'.failed == w.failed
            && (|| (w'.order == w.order && w'.prior == w.prior)
                || (key in w.values && key !in w.prior && w'.order == w.order + [key] && w'.prior == w.prior[key := w.values[key]]))
  {
    hide Desired;
  }

  lemma {:induction false} SetAllInv(w: World, fate: Fate, keys: seq<string>, orig: map<string, string>)
    requires Inv(w, orig)
    ensures Inv(SetAll(w, fate, keys).0, orig) && SetAll(w, fate, keys).0.lost == w.lost
  {
    hide Inv, SetKey;
    if keys != [] {
      SetAllInv(w, fate, keys[..|keys| - 1], orig);
      var before := SetAll(w, fate, keys[..|keys| - 1]);
      if before.1 {
        SetKeyInv(before.0, fate, keys[|keys| - 1], orig);
      }
    }
  }

  /** Half way through a restore: the keys in `done` are settled, the others as the invariant says. */
  ghost predicate MidInv(w: World, orig: map<string, string>, done: set<string>) {
    Shape(w, orig) && forall k :: k in orig ==> if k in done then Settled(w, orig, k) else KeyInv(w, orig, k)
  }

  lemma RestoreKeyInv(w: World, fate: Fate, key: string, orig: map<string, string>, done: set<string>)
    requires MidInv(w, orig, done) && key in w.prior && key !in done
    ensures var w' := RestoreKey(w, fate, key);
            MidInv(w', orig, done + {key}) && Remembers(w, w')
  {
    hide KeyInv, Settled;
    RestoreKeyShape(w, fate, key, orig);
    forall k | k in orig
      ensures if k in done + {key} then Settled(RestoreKey(w, fate, key), orig, k) else KeyInv(RestoreKey(w, fate, key), orig, k)
    {
      RestoreKeyOne(w, fate, key, orig, k);
    }
  }

  lemma RestoreKeyShape(w: World, fate: Fate, key: string, orig: map<string, string>)
    requires Shape(w, orig) && key in w.prior
    ensures Shape(RestoreKey(w, fate, key), orig)
  {
  }

  lemma RestoreKeyOne(w: World, fate: Fate, key: string, orig: map<string, string>, k: string)
    requires key in w.prior && key in w.values
    ensures KeyInv(w, orig, key) && k == key ==> Settled(RestoreKey(w, fate, key), orig, k)
    ensures k != key && Settled(w, orig, k) ==> Settled(RestoreKey(w, fate, key), orig, k)
    ensures k != key && KeyInv(w, orig, k) ==> KeyInv(RestoreKey(w, fate, key), orig, k)
  {
    hide Desired;
  }

  /** `done` are the keys from place `n` of the order on. */
  ghost predicate IsDoneFrom(order: seq<string>, n: nat, done: set<string>) {
    forall i :: 0 <= i < |order| ==> (order[i] in done <==> n <= i)
  }

  lemma OneMoreDone(order: seq<string>, n: nat, done: set<string>)
    requires 0 < n <= |order| && IsDoneFrom(order, n, done)
    requires forall i, j :: 0 <= i < j < |order| ==> order[i] != order[j]
    ensures order[n - 1] !in done && IsDoneFrom(order, n - 1, done + {order[n - 1]})
  {
  }

  lemma AllDone(w: World, done: set<string>)
    requires IsDoneFrom(w.order, 0, done) && done <= w.prior.Keys && forall k :: k in w.order <==> k in w.prior
    ensures done == w.prior.Keys
  {
    forall k | k in w.prior ensures k in done {
      assert k in w.order;
    }
  }

  /** A restore step changes neither what is remembered nor its order, and forgets no loss. */
  ghost predicate Remembers(w: World, w': World) {
    w'.order == w.order && w'.prior == w.prior && w.lost <= w'.lost && (w.failed ==> w'.failed)
  }

  lemma RemembersTwice(a: World, b: World, c: World)
    requires Remembers(a, b) && Remembers(b, c)
    ensures Remembers(a, c)
  {
  }

  /** One key more put back, the `n`th. */
  lemma RestoreStep(w: World, fate: Fate, n: nat, orig: map<string, string>, done: set<string>) returns (w': World, done': set<string>)
    requires 0 < n <= |w.order| && MidInv(w, orig, done) && done <= w.prior.Keys && IsDoneFrom(w.order, n, done)
    ensures Restorable(w) && Restorable(w') && Remembers(w, w') && RestoreKeys(w, fate, n) == RestoreKeys(w', fate, n - 1)
    ensures MidInv(w', orig, done') && done' <= w.prior.Keys && IsDoneFrom(w.order, n - 1, done')
  {
    OrderIsPrior(w, orig, done);
    RestoreOneMore(w, fate, n);
    assert Restorable(w);
    OneMoreDone(w.order, n, done);
    hide RestoreKeys, MidInv, IsDoneFrom, RestoreKey;
    var key := w.order[n - 1];
    RestoreKeyInv(w, fate, key, orig, done);
    w', done' := RestoreKey(w, fate, key), done + {key};
  }

  /** Putting the first `n` keys back settles them too. */
  lemma {:induction false} RestoreKeysInv(w: World, fate: Fate, n: nat, orig: map<string, string>, done: set<string>)
    requires n <= |w.order| && MidInv(w, orig, done) && done <= w.prior.Keys && IsDoneFrom(w.order, n, done)
    ensures Restorable(w) && MidInv(RestoreKeys(w, fate, n), orig, w.prior.Keys) && Remembers(w, RestoreKeys(w, fate, n))
    decreases n
  {
    hide RestoreKeys, MidInv, IsDoneFrom;
    if n > 0 {
      var next, more := RestoreStep(w, fate, n, orig, done);
      RestoreKeysInv(next, fate, n - 1, orig, more);
      RemembersTwice(w, next, RestoreKeys(next, fate, n - 1));
    } else {
      NoneLeft(w, fate, orig, done);
    }
  }

  lemma NoneLeft(w: World, fate: Fate, orig: map<string, string>, done: set<string>)
    requires MidInv(w, orig, done) && done <= w.prior.Keys && IsDoneFrom(w.order, 0, done)
    ensures Restorable(w) && RestoreKeys(w, fate, 0) == w && MidInv(w, orig, w.prior.Keys)
  {
    OrderIsPrior(w, orig, done);
    AllDone(w, done);
    hide MidInv, IsDoneFrom;
  }

  lemma RestoreOneMore(w: World, fate: Fate, n: nat)
    requires n <= |w.order| && Restorable(w)
    ensures n == 0 ==> RestoreKeys(w, fate, n) == w
    ensures n > 0 ==>
      && w.order[n - 1] in w.prior && Restorable(RestoreKey(w, fate, w.order[n - 1]))
      && RestoreKey(w, fate, w.order[n - 1]).order == w.order
      && RestoreKeys(w, fate, n) == RestoreKeys(RestoreKey(w, fate, w.order[n - 1]), fate, n - 1)
  {
  }

  lemma OrderIsPrior(w: World, orig: map<string, string>, done: set<string>)
    requires MidInv(w, orig, done)
    ensures (forall k :: k in w.order <==> k in w.prior) && forall i, j :: 0 <= i < j < |w.order| ==> w.order[i] != w.order[j]
  {
  }

  /** After a restore the saver is empty, and exactly the keys not lost hold what the host had. */
  lemma RestoreInv(w: World, fate: Fate, orig: map<string, string>)
    requires Inv(w, orig)
    ensures Restorable(w)
    ensures var w' := Restored(w, fate);
            && Inv(w', orig) && w'.prior == map[] && w.lost <= w'.lost
            && forall k :: k in orig ==> k in w'.values && (w'.values[k] == orig[k] <==> k !in w'.lost)
  {
    RestoreKeysInv(w, fate, |w.order|, orig, {});
    var done := RestoreKeys(w, fate, |w.order|);
    var w' := Restored(w, fate);
    forall k | k in orig ensures KeyInv(w', orig, k) && Settled(w', orig, k) {
      assert if k in w.prior then Settled(done, orig, k) else KeyInv(done, orig, k);
    }
  }

  /** The world after the first `n` events of a run. */
  ghost predicate IsRun(ws: seq<World>, fate: Fate, cfg: Config, events: seq<Event>, orig: map<string, string>) {
    && |ws| == |events| + 1
    && ws[0] == World(orig, map[], [], 0, {}, false)
    && forall i :: 0 <= i < |events| ==> Follows(ws[i], ws[i + 1], fate, cfg, events[i])
  }

  ghost predicate Follows(w: World, w': World, fate: Fate, cfg: Config, e: Event) {
    match e
    case StartEvent(ready, installed) =>
      Restorable(SetAll(w, fate, Keys(cfg)).0) && w' == AfterStart(w, fate, cfg, ready, installed)
    case ShutdownEvent => Restorable(w) && w' == Restored(w, fate)
  }

  lemma FollowsInv(w: World, w': World, fate: Fate, cfg: Config, e: Event, orig: map<string, string>)
    requires Inv(w, orig) && Follows(w, w', fate, cfg, e)
    ensures Inv(w', orig) && w.lost <= w'.lost
  {
    match e
    case StartEvent(_, _) =>
      SetAllInv(w, fate, Keys(cfg), orig);
      RestoreInv(SetAll(w, fate, Keys(cfg)).0, fate, orig);
    case ShutdownEvent =>
      RestoreInv(w, fate, orig);
  }

  lemma {:induction false} RunInv(ws: seq<World>, fate: Fate, cfg: Config, events: seq<Event>,
                                  orig: map<string, string>, i: nat)
    requires IsRun(ws, fate, cfg, events, orig) && i < |ws|
    ensures Inv(ws[i], orig)
  {
    if i == 0 {
      forall k | k in orig ensures KeyInv(ws[0], orig, k) {
      }
    } else {
      RunInv(ws, fate, cfg, events, orig, i - 1);
      FollowsInv(ws[i - 1], ws[i], fate, cfg, events[i - 1], orig);
    }
  }

  /** After any shutdown in any run, with any accesses failing, the host has exactly what it had
      before the first start if and only if no failed restore ever lost a key. */
  lemma RestoredExactly(ws: seq<World>, fate: Fate, cfg: Config, events: seq<Event>, orig: map<string, string>, i: nat)
    requires IsRun(ws, fate, cfg, events, orig) && i < |events| && events[i].ShutdownEvent?
    ensures ws[i + 1].values == orig <==> ws[i + 1].lost == {}
  {
    RunInv(ws, fate, cfg, events, orig, i);
    assert Follows(ws[i], ws[i + 1], fate, cfg, events[i]);
    RestoreInv(ws[i], fate, orig);
    RunInv(ws, fate, cfg, events, orig, i + 1);
  }

  /** In particular, when no restore so far reported a failure, whatever else failed. */
  lemma RestoredWhenNoRestoreFailed(ws: seq<World>, fate: Fate, cfg: Config, events: seq<Event>,
                                    orig: map<string, string>, i: nat)
    requires IsRun(ws, fate, cfg, events, orig) && i < |events| && events[i].ShutdownEvent? && !ws[i + 1].failed
    ensures ws[i + 1].values == orig
  {
    RunInv(ws, fate, cfg, events, orig, i + 1);
    RestoredExactly(ws, fate, cfg, events, orig, i);
  }

  /** A lost key stays lost: no later start or shutdown ever gives the host its value back. */
  lemma {:induction false} LostForGood(ws: seq<World>, fate: Fate, cfg: Config, events: seq<Event>,
                                       orig: map<string, string>, i: nat, j: nat, k: string)
    requires IsRun(ws, fate, cfg, events, orig) && i <= j < |ws| && k in ws[i].lost
    ensures k in ws[j].lost && k in orig && k in ws[j].values && ws[j].values[k] != orig[k]
    decreases j
  {
    RunInv(ws, fate, cfg, events, orig, j);
    if i < j {
      LostForGood(ws, fate, cfg, events, orig, i, j - 1, k);
      RunInv(ws, fate, cfg, events, orig, j - 1);
      FollowsInv(ws[j - 1], ws[j], fate, cfg, events[j - 1], orig);
    }
    assert KeyInv(ws[j], orig, k);
  }

  lemma ForwardOnly(cfg: Config)
    requires cfg == Config(true, true, "")
    ensures Keys(cfg) == [IP_FORWARD, SendRedirects("all")] && SendRedirects("all") != IP_FORWARD
  {
    hide SendRedirects, Desired, IP_FORWARD;
    var named := ["all", ""];
    OneMoreInterface(named, 0);
    OneMoreInterface(named, 1);
    assert named[..0] == [] && named[..2] == named;
    assert ["all"][..0] == [] && RedirectKeys(["all"]) == RedirectKeys([]) + [SendRedirects("all")];
    RedirectIsNotForward("all");
    ForwardIsOne();
  }

  /** It does happen: a host that had forwarding off, one start that succeeds, and a shutdown whose
      only restore write, the fourth access, fails. */
  lemma LossHappens(cfg: Config, orig: map<string, string>, fate: Fate) returns (ws: seq<World>)
    requires cfg == Config(true, true, "") && orig == map[IP_FORWARD := "0"] && forall n :: fate(n) <==> n == 3
    ensures IsRun(ws, fate, cfg, [StartEvent(true, true), ShutdownEvent], orig)
    ensures ws[2].values == map[IP_FORWARD := "1"] && ws[2].lost == {IP_FORWARD} && ws[2].prior == map[]
  {
    ForwardOnly(cfg);
    hide SendRedirects, Keys, IP_FORWARD;
    var w0 := World(orig, map[], [], 0, {}, false);
    var w1 := World(map[IP_FORWARD := "1"], map[IP_FORWARD := "0"], [IP_FORWARD], 3, {}, false);
    var w2 := World(map[IP_FORWARD := "1"], map[], [], 4, {IP_FORWARD}, true);
    LossyStart(w0, w1, fate, SendRedirects("all"));
    LossyShutdown(w1, w2, fate);
    hide SetAll, RestoreKeys;
    ws := [w0, w1, w2];
  }

  /** Two reads and a write, all successful; the second key does not exist. */
  lemma LossyStart(w0: World, w1: World, fate: Fate, all: string)
    requires all != IP_FORWARD && forall n :: fate(n) <==> n == 3
    requires w0 == World(map[IP_FORWARD := "0"], map[], [], 0, {}, false)
    requires w1 == World(map[IP_FORWARD := "1"], map[IP_FORWARD := "0"], [IP_FORWARD], 3, {}, false)
    ensures SetAll(w0, fate, [IP_FORWARD, all]) == (w1, true)
  {
    ForwardIsOne();
    hide IP_FORWARD, Desired;
    var on := w1.(ops := 2);
    assert w0.values[IP_FORWARD := "1"] == on.values && w0.prior[IP_FORWARD := "0"] == on.prior;
    assert [] + [IP_FORWARD] == [IP_FORWARD];
    assert SetKey(w0, fate, IP_FORWARD, "1") == (on, true);
    assert SetKey(on, fate, all, Desired(all)) == (w1, true);
    hide SetKey;
    SetAllAppend(w0, fate, [], IP_FORWARD);
    SetAllAppend(w0, fate, [IP_FORWARD], all);
    assert [IP_FORWARD] + [all] == [IP_FORWARD, all];
  }

  /** The restore write fails. */
  lemma LossyShutdown(w1: World, w2: World, fate: Fate)
    requires forall n :: fate(n) <==> n == 3
    requires w1 == World(map[IP_FORWARD := "1"], map[IP_FORWARD := "0"], [IP_FORWARD], 3, {}, false)
    requires w2 == World(map[IP_FORWARD := "1"], map[], [], 4, {IP_FORWARD}, true)
    ensures Restorable(w1) && Restored(w1, fate) == w2
  {
    hide IP_FORWARD;
    assert {} + {IP_FORWARD} == {IP_FORWARD};
    RestoreOneMore(w1, fate, 1);
    RestoreOneMore(RestoreKey(w1, fate, IP_FORWARD), fate, 0);
    hide RestoreKeys;
  }

  lemma ForwardIsOne()
    ensures Desired(IP_FORWARD) == "1"
  {
  }

  // The code.

  class Kernel {
    var values: map<string, string>
    var ops: nat
    const fate: Fate

    constructor (values: map<string, string>, fate: Fate)
      ensures this.values == values && ops == 0 && this.fate == fate
    {
      this.values, ops, this.fate := values, 0, fate;
    }

    /** Err is any failure but a missing key. */
    method Read(key: string) returns (res: Result<Option<string>, ()>)
      modifies this`ops
      ensures ops == old(ops) + 1
      ensures res == if fate(old(ops)) then Err(()) else Ok(if key in values then Some(values[key]) else None)
    {
      ops := ops + 1;
      if fate(ops - 1) {
        return Err(());
      }
      return Ok(if key in values then Some(values[key]) else None);
    }

    method Write(key: string, value: string) returns (ok: bool)
      modifies this
      ensures ops == old(ops) + 1 && ok == (!fate(old(ops)) && key in old(values))
      ensures values == if ok then old(values)[key := value] else old(values)
    {
      ops := ops + 1;
      if fate(ops - 1) || key !in values {
        return false;
      }
      values := values[key := value];
      return true;
    }
  }

  class SysctlSaver {
    const root: Kernel
    var prior: map<string, string>
    var order: seq<string>
    ghost var lost: set<string>
    ghost var failed: bool

    constructor (root: Kernel)
      ensures this.root == root && View() == World(root.values, map[], [], root.ops, {}, false)
    {
      this.root := root;
      prior, order, lost, failed := map[], [], {}, false;
    }

    ghost function View(): World
      reads this, root
    {
      World(root.values, prior, order, root.ops, lost, failed)
    }

    method Set(key: string, value: string) returns (ok: bool)
      modifies this, root
      ensures (View(), ok) == SetKey(old(View()), root.fate, key, value)
    {
      var cur := root.Read(key);
      if cur.Err? {
        return false;
      }
      if cur.value.None? {
        return true;
      }
      if key !in prior {
        prior := prior[key := cur.value.value];
        order := order + [key];
      }
      if cur.value.value == value {
        return true;
      }
      ok := root.Write(key, value);
    }

    /** Undo all settings, newest first; the result says whether every write succeeded. */
    method Restore() returns (ok: bool)
      requires Restorable(View())
      modifies this, root
      ensures View() == Restored(old(View()), root.fate)
      ensures failed == (old(failed) || !ok)
    {
      hide RestoreKey;
      ok := true;
      ghost var w := View();
      var i := |order|;
      while i > 0
        invariant 0 <= i <= |order| && Restorable(View()) && failed == (w.failed || !ok)
        invariant RestoreKeys(View(), root.fate, i) == RestoreKeys(w, root.fate, |w.order|)
      {
        i := i - 1;
        var key := order[i];
        assert key in order;
        var written := PutBack(key);
        ok := ok && written;
      }
      order := [];
      prior := map[];
    }

    /** Write one remembered value back. */
    method PutBack(key: string) returns (ok: bool)
      requires key in prior
      modifies this`lost, this`failed, root
      ensures View() == RestoreKey(old(View()), root.fate, key)
      ensures root.values.Keys == old(root.values.Keys) && failed == (old(failed) || !ok)
    {
      ghost var before := root.values;
      ok := root.Write(key, prior[key]);
      if !ok {
        failed := true;
        lost := if key in before && before[key] != prior[key] then lost + {key} else lost;
      }
    }

    function Changed(): seq<string>
      reads this
    {
      order
    }
  }

  /** The gateway's own nftables table: there or not. */
  class Netfilter {
    var table: bool

    constructor ()
      ensures !table
    {
      table := false;
    }

    /** nft takes the whole ruleset or none of it. */
    method Install(accepted: bool) returns (ok: bool)
      modifies this
      ensures ok == accepted && table == (old(table) || accepted)
    {
      if accepted {
        table := true;
      }
      return accepted;
    }

    method Delete(ran: bool)
      modifies this
      ensures table == (old(table) && !ran)
    {
      if ran {
        table := false;
      }
    }
  }

  /** What a start finds before it changes anything; no port when the listener's address has none. */
  datatype Checks = Checks(linux: bool, netAdmin: bool, validConfig: bool, port: Option<nat>) {
    predicate Pass() {
      linux && netAdmin && validConfig && port.Some?
    }
  }

  datatype StartError = NotLinux | NoPrivileges | NoNft | InvalidConfig | InvalidAddress | SysctlFailed | RulesetRefused

  class Manager {
    const cfg: Config
    const sysctl: SysctlSaver
    const netfilter: Netfilter
    const hasNft: bool
    var active: bool
    var port: nat
    var sysctls: seq<string>

    ghost predicate Valid(orig: map<string, string>)
      reads this, sysctl, sysctl.root
    {
      Inv(sysctl.View(), orig)
    }

    constructor (cfg: Config, sysctl: SysctlSaver, netfilter: Netfilter, hasNft: bool)
      ensures this.cfg == cfg && this.sysctl == sysctl && this.netfilter == netfilter && this.hasNft == hasNft
      ensures !active && port == 0 && sysctls == []
    {
      this.cfg, this.sysctl, this.netfilter, this.hasNft := cfg, sysctl, netfilter, hasNft;
      active, port, sysctls := false, 0, [];
    }

    method ApplySysctls() returns (ok: bool)
      modifies sysctl, sysctl.root
      ensures (sysctl.View(), ok) == SetAll(old(sysctl.View()), sysctl.root.fate, Keys(cfg))
    {
      ghost var w, fate := sysctl.View(), sysctl.root.fate;
      ghost var done: seq<string> := [];
      if cfg.ipForward {
        ok := sysctl.Set(IP_FORWARD, "1");
        done := [IP_FORWARD];
        SetAllAppend(w, fate, [], IP_FORWARD);
        if !ok {
          SetAllStops(w, fate, done, RedirectKeys(Interfaces(cfg)));
          return;
        }
      }
      ok := ApplyRedirects(w, done);
    }

    /** The redirect keys, after those already `done` from world `w`. */
    method ApplyRedirects(ghost w: World, ghost done: seq<string>) returns (ok: bool)
      requires SetAll(w, sysctl.root.fate, done) == (sysctl.View(), true)
      modifies sysctl, sysctl.root
      ensures (sysctl.View(), ok) == SetAll(w, sysctl.root.fate, done + RedirectKeys(Interfaces(cfg)))
    {
      ghost var fate := sysctl.root.fate;
      var ifaces := ["all", cfg.iface];
      ghost var finished: seq<string> := [];
      assert done + RedirectKeys(finished) == done;
      hide SendRedirects, Desired, SetKey, RedirectKeys, SetAll;
      for i := 0 to |ifaces|
        invariant finished == NonBlank(ifaces[..i])
        invariant (sysctl.View(), true) == SetAll(w, fate, done + RedirectKeys(finished))
      {
        var iface := ifaces[i];
        OneMoreInterface(ifaces, i);
        if iface == "" {
          continue;
        }
        OneMoreRedirect(w, fate, done, finished, iface);
        RedirectIsNotForward(iface);
        ok := sysctl.Set(SendRedirects(iface), "0");
        finished := finished + [iface];
        if !ok {
          RedirectsStop(w, fate, done, finished, NonBlank(ifaces));
          return;
        }
      }
      assert ifaces[..|ifaces|] == ifaces;
      ok := true;
    }

    /** The first check that fails, if any, in the order in which they are made. */
    method Check(checks: Checks) returns (err: Option<StartError>)
      ensures err.None? <==> checks.Pass() && hasNft
      ensures err == Some(NotLinux) <==> !checks.linux
      ensures err == Some(NoPrivileges) <==> checks.linux && !checks.netAdmin
      ensures err == Some(NoNft) <==> checks.linux && checks.netAdmin && !hasNft
      ensures err == Some(InvalidConfig) <==> checks.linux && checks.netAdmin && hasNft && !checks.validConfig
    {
      if !checks.linux {
        return Some(NotLinux);
      }
      if !checks.netAdmin {
        return Some(NoPrivileges);
      }
      if !hasNft {
        return Some(NoNft);
      }
      if !checks.validConfig {
        return Some(InvalidConfig);
      }
      return if checks.port.None? then Some(InvalidAddress) else None;
    }

    /** Install the settings and the ruleset; `accepted` is whether nft takes the ruleset, `deleted`
        whether it deletes the table should that be asked of it. */
    method Start(checks: Checks, accepted: bool, deleted: bool, ghost orig: map<string, string>) returns (err: Option<StartError>)
      requires Valid(orig)
      modifies this, sysctl, sysctl.root, netfilter
      ensures Follows(old(sysctl.View()), sysctl.View(), sysctl.root.fate, cfg, StartEvent(checks.Pass() && hasNft, accepted)) && Valid(orig)
      ensures err.None? <==>
        !cfg.enabled || (checks.Pass() && hasNft && SetAll(old(sysctl.View()), sysctl.root.fate, Keys(cfg)).1 && accepted)
      ensures if !cfg.enabled || !checks.Pass() || !hasNft then
                active == old(active) && port == old(port) && sysctls == old(sysctls) && netfilter.table == old(netfilter.table)
              else if err.None? then
                active && Some(port) == checks.port && sysctls == sysctl.order && netfilter.table
              else
                !active && port == 0 && sysctls == [] && netfilter.table == (old(netfilter.table) && !deleted)
    {
      ghost var w, fate := sysctl.View(), sysctl.root.fate;
      SetAllInv(w, fate, Keys(cfg), orig);
      RestoreInv(SetAll(w, fate, Keys(cfg)).0, fate, orig);
      hide Inv, SetAll, Keys;
      if !cfg.enabled {
        return None;
      }
      err := Check(checks);
      if err.Some? {
        return;
      }
      var applied := ApplySysctls();
      if !applied {
        Shutdown(deleted, orig);
        return Some(SysctlFailed);
      }
      var installed := netfilter.Install(accepted);
      if !installed {
        Shutdown(deleted, orig);
        return Some(RulesetRefused);
      }
      active, port, sysctls := true, checks.port.value, sysctl.Changed();
    }

    /** Remove the ruleset, as far as nft does, and restore the settings. */
    method Shutdown(deleted: bool, ghost orig: map<string, string>)
      requires Valid(orig)
      modifies this, sysctl, sysctl.root, netfilter
      ensures Follows(old(sysctl.View()), sysctl.View(), sysctl.root.fate, cfg, ShutdownEvent) && Valid(orig)
      ensures !active && port == 0 && sysctls == []
      ensures netfilter.table == (old(netfilter.table) && !(hasNft && deleted))
    {
      RestoreInv(sysctl.View(), sysctl.root.fate, orig);
      hide Inv;
      if hasNft {
        netfilter.Delete(deleted);
      }
      var restored := sysctl.Restore();
      active, port, sysctls := false, 0, [];
    }
  }

  lemma RedirectIsNotForward(iface: string)
    ensures Desired(SendRedirects(iface)) == "0"
  {
  }

  lemma OneMoreInterface(ifaces: seq<string>, i: nat)
    requires i < |ifaces|
    ensures NonBlank(ifaces[..i + 1]) == NonBlank(ifaces[..i]) + (if ifaces[i] == "" then [] else [ifaces[i]])
    ensures NonBlank(ifaces[..i + 1]) <= NonBlank(ifaces)
  {
    assert ifaces[..i + 1][..i] == ifaces[..i];
    NonBlankPrefix(ifaces, i + 1);
  }

  lemma {:induction false} NonBlankPrefix(ifaces: seq<string>, n: nat)
    requires n <= |ifaces|
    ensures NonBlank(ifaces[..n]) <= NonBlank(ifaces)
  {
    if n < |ifaces| {
      NonBlankPrefix(ifaces[..|ifaces| - 1], n);
      assert ifaces[..|ifaces| - 1][..n] == ifaces[..n];
    } else {
      assert ifaces[..n] == ifaces;
    }
  }

  /** One interface more. */
  lemma OneMoreRedirect(w: World, fate: Fate, done: seq<string>, finished: seq<string>, iface: string)
    ensures SetAll(w, fate, done + RedirectKeys(finished + [iface])) ==
      var (before, ok) := SetAll(w, fate, done + RedirectKeys(finished));
      if !ok then (before, false) else SetKey(before, fate, SendRedirects(iface), Desired(SendRedirects(iface)))
  {
    hide SetKey, SendRedirects, SetAll;
    var more := finished + [iface];
    assert more[..|finished|] == finished;
    SetAllAppend(w, fate, done + RedirectKeys(finished), SendRedirects(iface));
    assert done + RedirectKeys(more) == done + RedirectKeys(finished) + [SendRedirects(iface)];
  }

  /** A key that cannot be set is the end of it. */
  lemma RedirectsStop(w: World, fate: Fate, done: seq<string>, some: seq<string>, all: seq<string>)
    requires some <= all && !SetAll(w, fate, done + RedirectKeys(some)).1
    ensures SetAll(w, fate, done + RedirectKeys(all)) == SetAll(w, fate, done + RedirectKeys(some))
  {
    hide SetAll, RedirectKeys;
    RedirectKeysPrefix(some, all);
    var rest := RedirectKeys(all)[|RedirectKeys(some)|..];
    SetAllStops(w, fate, done + RedirectKeys(some), rest);
    assert done + RedirectKeys(all) == done + RedirectKeys(some) + rest;
  }

  lemma SetAllAppend(w: World, fate: Fate, keys: seq<string>, key: string)
    ensures SetAll(w, fate, keys + [key]) ==
      var (before, ok) := SetAll(w, fate, keys);
      if !ok then (before, false) else SetKey(before, fate, key, Desired(key))
  {
  }

  lemma {:induction false} SetAllStops(w: World, fate: Fate, keys: seq<string>, more: seq<string>)
    requires !SetAll(w, fate, keys).1
    ensures SetAll(w, fate, keys + more) == SetAll(w, fate, keys)
  {
    if more == [] {
      assert keys + more == keys;
    } else {
      SetAllStops(w, fate, keys, more[..|more| - 1]);
      assert (keys + more)[..|keys + more| - 1] == keys + more[..|more| - 1];
    }
  }

  lemma {:induction false} RedirectKeysPrefix(some: seq<string>, all: seq<string>)
    requires some <= all
    ensures RedirectKeys(some) <= RedirectKeys(all)
  {
    if |some| < |all| {
      RedirectKeysPrefix(some, all[..|all| - 1]);
    } else {
      assert some == all;
    }
  }
}
