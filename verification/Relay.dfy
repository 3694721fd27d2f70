/** Port polling and relays of dev_handler/dev_handler.c: one poller thread and any number of relayer
    threads over the used-port bitmaps and the device catalog. */
module Relay {
  import opened Basics
  import ShmBlock

  datatype Port = Port(isVirtual: bool, num: nat)

  // ------------------------------------------------------------------ the scan of one kind of port

  class UsedPorts {
    var used: Bitmap

    /** get_new_devices_helper with nobody else at work; `present` is the set of port files that exist. */
    method GetNewDevicesHelper(present: Bitmap) returns (found: Bitmap, count: nat)
      modifies this
      ensures found == present - old(used) && used == old(used) + present && count == |found|
    {
      found, count := {}, 0;
      ghost var was := used;
      for i := 0 to MAX_DEVICES
        invariant forall j :: j in found <==> j in present && j !in was && j < i
        invariant used == was + found && count == |found|
      {
        if i !in used {
          if i in present {
            found := found + {i};
            used := used + {i};
            count := count + 1;
          }
        }
      }
    }
  }

  // ------------------------------------------------------------------ all threads together

  /** Where a relay is. `Clearing` holds the used-ports word it has loaded under the lock. */
  datatype Phase = Verifying | Verified | Connected(ix: nat) | Released | Clearing(word: set<Port>)

  datatype Relayer = Relayer(port: Port, phase: Phase)

  /** The poller: scanning the 64 port files, opening what it found, or in the middle of the unlocked clear
      that follows a port it could not open. */
  datatype Poller = Scan(i: nat, found: seq<Port>) | Opening(todo: seq<Port>) | Loaded(port: Port, word: set<Port>, todo: seq<Port>)

  /** `lock` is the relay that holds used_ports_lock. */
  datatype State = State(used: set<Port>, lock: Option<nat>, poller: Poller, relays: map<nat, Relayer>, catalog: Bitmap)

  datatype Action =
    | ScanPort(present: bool) | EndScan | Rescan
    | Open(ok: bool, id: nat) | StoreUnused
    | Verify(id: nat, ok: bool) | Connect(id: nat) | Leave(id: nat) | LockPorts(id: nat) | ClearPort(id: nat)

  const START := State({}, None, Scan(0, []), map[], {})

  function PortAt(i: nat): (p: Port) { if i < 32 then Port(false, i) else Port(true, i - 32) }

  /** The bitmap word that holds port `p`. */
  function WordOf(used: set<Port>, p: Port): (w: set<Port>) { set q | q in used && q.isVirtual == p.isVirtual }

  /** Storing that word with the bit of `p` off. */
  function StoreWord(used: set<Port>, p: Port, word: set<Port>): (r: set<Port>) { (used - WordOf(used, p)) + (word - {p}) }

  predicate In(s: State, id: nat, phase: Phase) { id in s.relays && s.relays[id].phase == phase }

  predicate Enabled(s: State, a: Action)
  {
    match a
    case ScanPort(_) => s.poller.Scan? && s.poller.i < 64 && s.lock.None?
    case EndScan => s.poller.Scan? && s.poller.i == 64
    case Rescan => s.poller == Opening([])
    case Open(ok, id) => s.poller.Opening? && s.poller.todo != [] && (ok ==> id !in s.relays)
    case StoreUnused => s.poller.Loaded?
    case Verify(id, _) => In(s, id, Verifying)
    case Connect(id) => In(s, id, Verified)
    case Leave(id) => id in s.relays && s.relays[id].phase.Connected?
    case LockPorts(id) => In(s, id, Released) && s.lock.None?
    case ClearPort(id) => id in s.relays && s.relays[id].phase.Clearing? && s.lock == Some(id)
  }

  function SetPhase(s: State, id: nat, phase: Phase): (r: State)
    requires id in s.relays
  {
    s.(relays := s.relays[id := Relayer(s.relays[id].port, phase)])
  }

  function Step(s: State, a: Action): (r: State)
    requires Enabled(s, a)
  {
    match a
    case ScanPort(present) =>
      var p := PortAt(s.poller.i);
      if p !in s.used && present then s.(used := s.used + {p}, poller := Scan(s.poller.i + 1, s.poller.found + [p]))
      else s.(poller := Scan(s.poller.i + 1, s.poller.found))
    case EndScan => s.(poller := Opening(s.poller.found))
    case Rescan => s.(poller := Scan(0, []))
    case Open(ok, id) =>
      var p := s.poller.todo[0];
      if ok then s.(poller := Opening(s.poller.todo[1..]), relays := s.relays[id := Relayer(p, Verifying)])
      else s.(poller := Loaded(p, WordOf(s.used, p), s.poller.todo[1..]))
    case StoreUnused => s.(used := StoreWord(s.used, s.poller.port, s.poller.word), poller := Opening(s.poller.todo))
    case Verify(id, ok) => SetPhase(s, id, if ok then Verified else Released)
    case Connect(id) =>
      var ix := ShmBlock.FreeFrom(s.catalog, 0);
      if ix == MAX_DEVICES then SetPhase(s, id, Released)
      else SetPhase(s, id, Connected(ix)).(catalog := s.catalog + {ix})
    case Leave(id) => SetPhase(s, id, Released).(catalog := s.catalog - {s.relays[id].phase.ix})
    case LockPorts(id) => SetPhase(s, id, Clearing(WordOf(s.used, s.relays[id].port))).(lock := Some(id))
    case ClearPort(id) =>
      s.(used := StoreWord(s.used, s.relays[id].port, s.relays[id].phase.word), lock := None, relays := s.relays - {id})
  }

  ghost predicate Run(ss: seq<State>, acts: seq<Action>)
  {
    && |ss| == |acts| + 1 && ss[0] == START
    && (forall k :: 0 <= k < |acts| ==> Enabled(ss[k], acts[k]))
    && (forall k :: 0 <= k < |acts| ==> ss[k + 1] == Step(ss[k], acts[k]))
  }

  // ------------------------------------------------------------------ what every step keeps

  /** The ports the poller has found and not yet given away. */
  function Pending(p: Poller): (r: seq<Port>)
  {
    match p
    case Scan(_, found) => found
    case Opening(todo) => todo
    case Loaded(port, _, todo) => [port] + todo
  }

  predicate Live(s: State, p: Port) { exists id :: id in s.relays && s.relays[id].port == p }

  /** Somebody answers for port `p`: a relay, or the poller. */
  predicate Claimed(s: State, p: Port) { Live(s, p) || p in Pending(s.poller) }

  predicate HasIndex(s: State, id: nat, ix: nat) { In(s, id, Connected(ix)) }

  ghost predicate PortsOk(s: State)
  {
    && (forall i, j :: i in s.relays && j in s.relays && s.relays[i].port == s.relays[j].port ==> i == j)
    && (forall i, j :: 0 <= i < j < |Pending(s.poller)| ==> Pending(s.poller)[i] != Pending(s.poller)[j])
    && (forall id :: id in s.relays ==> s.relays[id].port !in Pending(s.poller))
    && (forall p :: Claimed(s, p) ==> p in s.used)
  }

  /** A word loaded and not yet stored back still covers every claimed port of its kind, and a relay that
      has loaded one holds the lock. */
  ghost predicate WordsOk(s: State)
  {
    && (s.poller.Loaded? ==> Covers(s, s.poller.port, s.poller.word))
    && (forall id :: id in s.relays && s.relays[id].phase.Clearing? ==>
          s.lock == Some(id) && Covers(s, s.relays[id].port, s.relays[id].phase.word))
  }

  ghost predicate Covers(s: State, p: Port, word: set<Port>)
  {
    && (forall q :: q in word ==> q.isVirtual == p.isVirtual)
    && (forall q :: Claimed(s, q) && q.isVirtual == p.isVirtual ==> q in word)
  }

  ghost predicate CatalogOk(s: State)
  {
    && (forall i, j, ix :: HasIndex(s, i, ix) && HasIndex(s, j, ix) ==> i == j)
    && (forall ix :: ix in s.catalog <==> exists id :: HasIndex(s, id, ix))
  }

  /** Only connecting and leaving change who holds an index. */
  lemma IndexStep(s: State, a: Action, i: nat, x: nat)
    requires Enabled(s, a)
    ensures HasIndex(Step(s, a), i, x) <==>
            match a
            case Connect(id) => if i == id then x == ShmBlock.FreeFrom(s.catalog, 0) && x != MAX_DEVICES else HasIndex(s, i, x)
            case Leave(id) => i != id && HasIndex(s, i, x)
            case _ => HasIndex(s, i, x)
  {
  }

  lemma StepKeepsCatalog(s: State, a: Action)
    requires Enabled(s, a) && CatalogOk(s)
    ensures CatalogOk(Step(s, a))
  {
    var s' := Step(s, a);
    forall i, x ensures HasIndex(s', i, x) <==>
        match a
        case Connect(id) => if i == id then x == ShmBlock.FreeFrom(s.catalog, 0) && x != MAX_DEVICES else HasIndex(s, i, x)
        case Leave(id) => i != id && HasIndex(s, i, x)
        case _ => HasIndex(s, i, x)
    {
      IndexStep(s, a, i, x);
    }
    if a.Leave? { assert HasIndex(s, a.id, s.relays[a.id].phase.ix); }
    assert a.Connect? || a.Leave? || s'.catalog == s.catalog;
    hide HasIndex;
    forall x ensures x in s'.catalog <==> exists id :: HasIndex(s', id, x) {
      if a.Connect? && x == ShmBlock.FreeFrom(s.catalog, 0) && x != MAX_DEVICES {
        assert HasIndex(s', a.id, x);
      }
    }
  }

  lemma PendingStep(s: State, a: Action)
    requires Enabled(s, a)
    ensures var mine, yours := Pending(s.poller), Pending(Step(s, a).poller);
            match a
            case ScanPort(present) =>
              var p := PortAt(s.poller.i); yours == if p !in s.used && present then mine + [p] else mine
            case Open(ok, _) => mine != [] && mine[0] == s.poller.todo[0] && yours == if ok then mine[1..] else mine
            case StoreUnused => mine != [] && mine[0] == s.poller.port && yours == mine[1..]
            case _ => yours == mine
  {
    if a.Open? { assert s.poller.todo == [s.poller.todo[0]] + s.poller.todo[1..]; }
  }

  lemma RelaysStep(s: State, a: Action, id: nat)
    requires Enabled(s, a) && id in Step(s, a).relays
    ensures if a.Open? && a.ok && id == a.id then Step(s, a).relays[id].port == s.poller.todo[0]
            else id in s.relays && Step(s, a).relays[id].port == s.relays[id].port
    ensures a.ClearPort? ==> id != a.id
  {
  }

  /** A step claims no port but the one it scans, and gives up the port it clears. */
  lemma ClaimedBefore(s: State, a: Action, q: Port)
    requires Enabled(s, a) && PortsOk(s) && Claimed(Step(s, a), q)
    ensures Claimed(s, q) || (a.ScanPort? && a.present && q == PortAt(s.poller.i) && q in Step(s, a).used)
    ensures a.StoreUnused? ==> q != s.poller.port
    ensures a.ClearPort? ==> q != s.relays[a.id].port
  {
    var s' := Step(s, a);
    var mine, yours := Pending(s.poller), Pending(s'.poller);
    PendingStep(s, a);
    if Live(s', q) {
      var id :| id in s'.relays && s'.relays[id].port == q;
      RelaysStep(s, a, id);
      hide Pending, Step, Enabled;
      assert (a.Open? && a.ok && id == a.id && q == mine[0]) || Live(s, q);
    } else {
      PendingBefore(s, a, q);
    }
  }

  lemma PendingBefore(s: State, a: Action, q: Port)
    requires Enabled(s, a) && PortsOk(s) && q in Pending(Step(s, a).poller)
    ensures q in Pending(s.poller) || (a.ScanPort? && a.present && q == PortAt(s.poller.i) && q in Step(s, a).used)
    ensures a.StoreUnused? ==> q != s.poller.port
    ensures a.ClearPort? ==> q != s.relays[a.id].port
  {
    hide Claimed;
    var mine, yours := Pending(s.poller), Pending(Step(s, a).poller);
    PendingStep(s, a);
    var k :| 0 <= k < |yours| && yours[k] == q;
    if a.StoreUnused? || (a.Open? && a.ok) { assert mine[k + 1] == q; }
  }

  lemma StoreKeeps(s: State, p: Port, word: set<Port>, q: Port)
    requires PortsOk(s) && Covers(s, p, word) && Claimed(s, q) && q != p
    ensures q in StoreWord(s.used, p, word)
  {
  }

  lemma ClaimedStaysUsed(s: State, a: Action, q: Port)
    requires Enabled(s, a) && PortsOk(s) && WordsOk(s) && Claimed(Step(s, a), q)
    ensures q in Step(s, a).used
  {
    hide Claimed, StoreWord;
    ClaimedBefore(s, a, q);
    if a.StoreUnused? {
      StoreKeeps(s, s.poller.port, s.poller.word, q);
    } else if a.ClearPort? {
      StoreKeeps(s, s.relays[a.id].port, s.relays[a.id].phase.word, q);
    }
  }

  lemma StepKeepsPending(s: State, a: Action)
    requires Enabled(s, a) && PortsOk(s)
    ensures var yours := Pending(Step(s, a).poller); forall i, j :: 0 <= i < j < |yours| ==> yours[i] != yours[j]
    ensures forall id :: id in Step(s, a).relays ==> Step(s, a).relays[id].port !in Pending(Step(s, a).poller)
  {
    var s' := Step(s, a);
    var mine, yours := Pending(s.poller), Pending(s'.poller);
    PendingStep(s, a);
    assert a.ScanPort? ==> forall p :: p in mine ==> Claimed(s, p);
    assert a.ScanPort? ==> forall id :: id in s.relays ==> Live(s, s.relays[id].port);
    forall id | id in s'.relays ensures s'.relays[id].port !in yours {
      RelaysStep(s, a, id);
    }
  }

  lemma StepKeepsOnePerPort(s: State, a: Action, i: nat, j: nat)
    requires Enabled(s, a) && PortsOk(s)
    requires i in Step(s, a).relays && j in Step(s, a).relays && Step(s, a).relays[i].port == Step(s, a).relays[j].port
    ensures i == j
  {
    if a.Open? && a.ok {
      assert s.poller.todo[0] in Pending(s.poller);
    }
  }

  lemma StepKeepsPorts(s: State, a: Action)
    requires Enabled(s, a) && PortsOk(s) && WordsOk(s)
    ensures PortsOk(Step(s, a))
  {
    hide WordsOk, Claimed;
    var s' := Step(s, a);
    StepKeepsPending(s, a);
    forall i, j | i in s'.relays && j in s'.relays && s'.relays[i].port == s'.relays[j].port ensures i == j {
      StepKeepsOnePerPort(s, a, i, j);
    }
    forall p | Claimed(s', p) ensures p in s'.used { ClaimedStaysUsed(s, a, p); }
  }

  /** A loaded word keeps covering: only the scan claims, and it never runs while a word is loaded. */
  lemma StillCovers(s: State, a: Action, p: Port, word: set<Port>)
    requires Enabled(s, a) && PortsOk(s) && Covers(s, p, word) && !a.ScanPort?
    ensures Covers(Step(s, a), p, word)
  {
    hide Claimed;
    forall q | Claimed(Step(s, a), q) && q.isVirtual == p.isVirtual ensures q in word { ClaimedBefore(s, a, q); }
  }

  lemma FreshCovers(s: State, a: Action, p: Port)
    requires Enabled(s, a) && PortsOk(s) && (a.LockPorts? || (a.Open? && !a.ok))
    ensures Covers(Step(s, a), p, WordOf(s.used, p))
  {
    hide Claimed;
    forall q | Claimed(Step(s, a), q) && q.isVirtual == p.isVirtual ensures q in WordOf(s.used, p) { ClaimedBefore(s, a, q); }
  }

  lemma StepKeepsWords(s: State, a: Action)
    requires Enabled(s, a) && PortsOk(s) && WordsOk(s)
    ensures WordsOk(Step(s, a))
  {
    hide PortsOk, Covers;
    var s' := Step(s, a);
    if s'.poller.Loaded? {
      if s.poller.Loaded? { StillCovers(s, a, s.poller.port, s.poller.word); } else { FreshCovers(s, a, s'.poller.port); }
    }
    forall id | id in s'.relays && s'.relays[id].phase.Clearing?
      ensures s'.lock == Some(id) && Covers(s', s'.relays[id].port, s'.relays[id].phase.word)
    {
      if id in s.relays && s.relays[id].phase.Clearing? {
        StillCovers(s, a, s.relays[id].port, s.relays[id].phase.word);
      } else {
        FreshCovers(s, a, s'.relays[id].port);
      }
    }
  }

  lemma {:induction false} RunOk(ss: seq<State>, acts: seq<Action>, n: nat)
    requires Run(ss, acts) && n < |ss|
    ensures PortsOk(ss[n]) && WordsOk(ss[n]) && CatalogOk(ss[n])
  {
    if n > 0 {
      RunOk(ss, acts, n - 1);
      StepKeepsPorts(ss[n - 1], acts[n - 1]);
      StepKeepsWords(ss[n - 1], acts[n - 1]);
      StepKeepsCatalog(ss[n - 1], acts[n - 1]);
    }
  }

  // ------------------------------------------------------------------ the results

  /** In every reachable state no port has two live relays. */
  lemma OneRelayPerPort(ss: seq<State>, acts: seq<Action>, n: nat, i: nat, j: nat)
    requires Run(ss, acts) && n < |ss| && i in ss[n].relays && j in ss[n].relays && i != j
    ensures ss[n].relays[i].port != ss[n].relays[j].port
  {
    RunOk(ss, acts, n);
  }

  /** In every reachable state a live relay's port is marked used and is not waiting to be opened once more. */
  lemma LivePortUsed(ss: seq<State>, acts: seq<Action>, n: nat, i: nat)
    requires Run(ss, acts) && n < |ss| && i in ss[n].relays
    ensures ss[n].relays[i].port in ss[n].used && ss[n].relays[i].port !in Pending(ss[n].poller)
  {
    RunOk(ss, acts, n);
    assert Live(ss[n], ss[n].relays[i].port);
  }

  /** Relays past device_connect hold distinct indices, and the catalog is exactly those indices. */
  lemma CatalogIsTheRelays(ss: seq<State>, acts: seq<Action>, n: nat, ix: nat)
    requires Run(ss, acts) && n < |ss|
    ensures forall i, j :: HasIndex(ss[n], i, ix) && HasIndex(ss[n], j, ix) ==> i == j
    ensures ix in ss[n].catalog <==> exists id :: HasIndex(ss[n], id, ix)
  {
    RunOk(ss, acts, n);
  }

  /** A port that is served, or waits to be, was present when it was scanned. */
  lemma {:induction false} ServedWasPresent(ss: seq<State>, acts: seq<Action>, n: nat, p: Port) returns (k: nat)
    requires Run(ss, acts) && n < |ss| && Claimed(ss[n], p)
    ensures k < n && acts[k] == ScanPort(true) && PortAt(ss[k].poller.i) == p
  {
    hide Step, Claimed;
    NobodyAtStart(p);
    RunOk(ss, acts, n - 1);
    assert ss[n] == Step(ss[n - 1], acts[n - 1]);
    ClaimedBefore(ss[n - 1], acts[n - 1], p);
    if Claimed(ss[n - 1], p) {
      k := ServedWasPresent(ss, acts, n - 1, p);
    } else {
      k := n - 1;
    }
  }

  lemma NobodyAtStart(p: Port)
    ensures !Claimed(START, p)
  {
  }

  // ------------------------------------------------------------------ the life of one relay

  /** The action is a step of relay `id`. */
  predicate Concerns(a: Action, id: nat)
  {
    match a
    case Open(ok, i) => ok && i == id
    case Verify(i, _) => i == id
    case Connect(i) => i == id
    case Leave(i) => i == id
    case LockPorts(i) => i == id
    case ClearPort(i) => i == id
    case _ => false
  }

  /** Action `k` is the last step of relay `id` among the first `n`. */
  ghost predicate LastOn(acts: seq<Action>, n: nat, k: nat, id: nat)
  {
    k < n <= |acts| && Concerns(acts[k], id) && forall j :: k < j < n ==> !Concerns(acts[j], id)
  }

  lemma OthersKeepRelay(s: State, a: Action, id: nat)
    requires Enabled(s, a) && !Concerns(a, id)
    ensures id in Step(s, a).relays <==> id in s.relays
    ensures id in s.relays ==> Step(s, a).relays[id] == s.relays[id]
  {
  }

  /** A relay is where its last step has left it: one whose verification failed is on its way out, and only a
      verified one, with a slot free, gets an index. */
  ghost predicate LeftIn(s: State, a: Action, id: nat, now: State)
  {
    match a
    case Open(_, _) => In(now, id, Verifying)
    case Verify(_, ok) => In(now, id, if ok then Verified else Released)
    case Connect(_) =>
      if s.catalog == ALL_BITS then In(now, id, Released)
      else exists ix :: 0 <= ix < 32 && ix !in s.catalog && (forall j :: 0 <= j < ix ==> j in s.catalog) && In(now, id, Connected(ix))
    case Leave(_) => In(now, id, Released)
    case LockPorts(_) => id in now.relays && now.relays[id].phase.Clearing?
    case _ => id !in now.relays
  }

  lemma StepLeaves(s: State, a: Action, id: nat)
    requires Enabled(s, a) && Concerns(a, id)
    ensures LeftIn(s, a, id, Step(s, a))
  {
    if a.Connect? {
      var ix := ShmBlock.FreeFrom(s.catalog, 0);
      if ix == MAX_DEVICES {
        assert s.catalog == ALL_BITS;
      } else {
        assert ix in ALL_BITS && ix !in s.catalog;
        assert In(Step(s, a), id, Connected(ix));
      }
    }
  }

  lemma {:induction false} PhaseExact(ss: seq<State>, acts: seq<Action>, n: nat, k: nat, id: nat)
    requires Run(ss, acts) && n < |ss| && LastOn(acts, n, k, id)
    ensures LeftIn(ss[k], acts[k], id, ss[n])
  {
    hide Step, LeftIn;
    var s, a := ss[n - 1], acts[n - 1];
    assert ss[n] == Step(s, a);
    if k == n - 1 {
      StepLeaves(s, a, id);
    } else {
      PhaseExact(ss, acts, n - 1, k, id);
      OthersKeepRelay(s, a, id);
      SameRelay(ss[k], acts[k], id, s, ss[n]);
    }
  }

  lemma SameRelay(s: State, a: Action, id: nat, now: State, later: State)
    requires LeftIn(s, a, id, now) && (id in later.relays <==> id in now.relays)
    requires id in now.relays ==> later.relays[id] == now.relays[id]
    ensures LeftIn(s, a, id, later)
  {
  }

  lemma {:induction false} FindLastOn(ss: seq<State>, acts: seq<Action>, n: nat, id: nat) returns (k: nat)
    requires Run(ss, acts) && n < |ss| && id in ss[n].relays
    ensures LastOn(acts, n, k, id)
  {
    hide Step;
    assert n > 0;
    assert ss[n] == Step(ss[n - 1], acts[n - 1]);
    if Concerns(acts[n - 1], id) {
      k := n - 1;
    } else {
      OthersKeepRelay(ss[n - 1], acts[n - 1], id);
      k := FindLastOn(ss, acts, n - 1, id);
    }
  }

  /** In every run a relay with an index got it from device_connect right after its verification succeeded. */
  lemma {:induction false} OnlyVerifiedConnect(ss: seq<State>, acts: seq<Action>, n: nat, id: nat, ix: nat) returns (v: nat, k: nat)
    requires Run(ss, acts) && n < |ss| && HasIndex(ss[n], id, ix)
    ensures LastOn(acts, n, k, id) && acts[k] == Connect(id)
    ensures LastOn(acts, k, v, id) && acts[v] == Verify(id, true)
  {
    hide Step;
    k := FindLastOn(ss, acts, n, id);
    PhaseExact(ss, acts, n, k, id);
    assert Enabled(ss[k], acts[k]);
    v := FindLastOn(ss, acts, k, id);
    PhaseExact(ss, acts, k, v, id);
  }

  // ------------------------------------------------------------------ stale bits

  /** Every used port is somebody's. */
  ghost predicate NothingStale(s: State) { forall p :: p in s.used ==> Claimed(s, p) }

  predicate Stores(a: Action) { a.StoreUnused? || a.ClearPort? }

  function StoredPort(s: State, a: Action): (p: Port)
    requires Enabled(s, a) && Stores(a)
  {
    if a.StoreUnused? then s.poller.port else s.relays[a.id].port
  }

  function StoredWord(s: State, a: Action): (w: set<Port>)
    requires Enabled(s, a) && Stores(a)
  {
    if a.StoreUnused? then s.poller.word else s.relays[a.id].phase.word
  }

  /** The used-ports word has not changed since the storing thread loaded it. */
  predicate Current(s: State, a: Action)
    requires Enabled(s, a)
  {
    Stores(a) ==> StoredWord(s, a) == WordOf(s.used, StoredPort(s, a))
  }

  /** The converse of ClaimedBefore: a claim is given up only by the step that clears its port. */
  lemma ClaimedAfter(s: State, a: Action, q: Port)
    requires Enabled(s, a) && Claimed(s, q) && !(Stores(a) && q == StoredPort(s, a))
    ensures Claimed(Step(s, a), q)
  {
    var s' := Step(s, a);
    var mine, yours := Pending(s.poller), Pending(s'.poller);
    PendingStep(s, a);
    if q in mine {
      var k :| 0 <= k < |mine| && mine[k] == q;
      if a.Open? && a.ok && k == 0 {
        assert s'.relays[a.id].port == q && Live(s', q);
      } else if a.StoreUnused? || (a.Open? && a.ok) {
        assert yours[k - 1] == q;
      }
    } else {
      var id :| id in s.relays && s.relays[id].port == q;
      assert s'.relays[id].port == q && Live(s', q);
    }
  }

  /** A store leaves no stale bit exactly when the word is still the one that was loaded. */
  lemma StoreExact(s: State, a: Action)
    requires Enabled(s, a) && Stores(a) && PortsOk(s) && WordsOk(s) && NothingStale(s)
    ensures NothingStale(Step(s, a)) <==> Current(s, a)
  {
    hide Claimed;
    var s', p, w := Step(s, a), StoredPort(s, a), StoredWord(s, a);
    assert Claimed(s, p) by { StoredClaimed(s, a); }
    forall q | q in s.used && q != p ensures Claimed(s', q) { ClaimedAfter(s, a, q); }
    if Current(s, a) {
      assert s'.used == s.used - {p};
    } else {
      assert forall q :: q in WordOf(s.used, p) ==> q in w;
      var q :| q in w && q !in WordOf(s.used, p);
      assert q in s'.used && q !in s.used;
      if Claimed(s', q) { ClaimedBefore(s, a, q); }
    }
  }

  lemma StoredClaimed(s: State, a: Action)
    requires Enabled(s, a) && Stores(a)
    ensures Claimed(s, StoredPort(s, a))
  {
    if a.StoreUnused? {
      assert Pending(s.poller)[0] == s.poller.port;
    } else {
      assert Live(s, s.relays[a.id].port);
    }
  }

  lemma OthersLeaveNothingStale(s: State, a: Action)
    requires Enabled(s, a) && !Stores(a) && NothingStale(s)
    ensures NothingStale(Step(s, a))
  {
    hide Claimed;
    var s' := Step(s, a);
    forall q | q in s'.used ensures Claimed(s', q) {
      if q in s.used {
        ClaimedAfter(s, a, q);
      } else {
        JustFound(s, a);
      }
    }
  }

  lemma JustFound(s: State, a: Action)
    requires Enabled(s, a) && a.ScanPort? && a.present && PortAt(s.poller.i) !in s.used
    ensures Claimed(Step(s, a), PortAt(s.poller.i))
  {
    PendingStep(s, a);
    var yours := Pending(Step(s, a).poller);
    assert yours[|yours| - 1] == PortAt(s.poller.i);
  }

  /** A run leaves no stale bit exactly as long as every store finds the word it loaded. */
  lemma {:induction false} StaleExact(ss: seq<State>, acts: seq<Action>, n: nat)
    requires Run(ss, acts) && n < |ss|
    ensures (forall k :: 0 <= k <= n ==> NothingStale(ss[k])) <==> (forall k :: 0 <= k < n ==> Current(ss[k], acts[k]))
  {
    hide NothingStale, Current, Step;
    if n == 0 {
      StartNothingStale();
    } else {
      StaleExact(ss, acts, n - 1);
      RunOk(ss, acts, n - 1);
      var s, a := ss[n - 1], acts[n - 1];
      assert ss[n] == Step(s, a);
      assert (forall k :: 0 <= k <= n ==> NothingStale(ss[k])) <==> (forall k :: 0 <= k <= n - 1 ==> NothingStale(ss[k])) && NothingStale(ss[n]);
      assert (forall k :: 0 <= k < n ==> Current(ss[k], acts[k])) <==>
        (forall k :: 0 <= k < n - 1 ==> Current(ss[k], acts[k])) && Current(s, a);
      if NothingStale(s) {
        if Stores(a) {
          StoreExact(s, a);
        } else {
          OthersLeaveNothingStale(s, a);
          OthersCurrent(s, a);
        }
      }
    }
  }

  lemma StartNothingStale()
    ensures NothingStale(START)
  {
  }

  lemma OthersCurrent(s: State, a: Action)
    requires Enabled(s, a) && !Stores(a)
    ensures Current(s, a)
  {
  }

  // ------------------------------------------------------------------ a run that leaves a stale bit

  lemma Extend(ss: seq<State>, acts: seq<Action>, a: Action) returns (ss': seq<State>, acts': seq<Action>)
    requires Run(ss, acts) && Enabled(ss[|acts|], a)
    ensures ss' == ss + [Step(ss[|acts|], a)] && acts' == acts + [a] && Run(ss', acts') && ss'[|acts'|] == Step(ss[|acts|], a)
  {
    ss', acts' := ss + [Step(ss[|acts|], a)], acts + [a];
  }

  lemma {:induction false} ScanNothing(ss: seq<State>, acts: seq<Action>, i: nat) returns (ss': seq<State>, acts': seq<Action>)
    requires Run(ss, acts) && ss[|acts|].poller.Scan? && ss[|acts|].lock.None? && ss[|acts|].poller.i == i <= 64
    ensures Run(ss', acts') && ss'[|acts'|] == ss[|acts|].(poller := Scan(64, ss[|acts|].poller.found))
    decreases 64 - i
  {
    ss', acts' := ss, acts;
    if i < 64 {
      ss', acts' := Extend(ss, acts, ScanPort(false));
      ss', acts' := ScanNothing(ss', acts', i + 1);
    }
  }

  /** Two ports are found; the first fails its verification while the second fails to open. The unlocked
      clear of the second overlaps the locked clear of the first, whose bit comes back on. */
  lemma {:induction false} StalePort() returns (ss: seq<State>, acts: seq<Action>)
    ensures Run(ss, acts)
    ensures ss[|acts|] == State({PortAt(0)}, None, Opening([]), map[], {}) && !NothingStale(ss[|acts|])
  {
    hide Run;
    var p, q := PortAt(0), PortAt(1);
    ss, acts := TwoFound();
    ss, acts := Extend(ss, acts, EndScan);
    ss, acts := Extend(ss, acts, Open(true, 0));
    assert [p, q][1..] == [q];
    ss, acts := Extend(ss, acts, Verify(0, false));
    ss, acts := Extend(ss, acts, Open(false, 0));
    ss, acts := Extend(ss, acts, LockPorts(0));
    ss, acts := Extend(ss, acts, ClearPort(0));
    ss, acts := Extend(ss, acts, StoreUnused);
    var s := ss[|acts|];
    assert s.used == {p} && s.relays == map[] && !Claimed(s, p);
  }

  lemma {:induction false} TwoFound() returns (ss: seq<State>, acts: seq<Action>)
    ensures Run(ss, acts)
    ensures ss[|acts|] == State({PortAt(0), PortAt(1)}, None, Scan(64, [PortAt(0), PortAt(1)]), map[], {})
  {
    ss, acts := [START], [];
    ss, acts := Extend(ss, acts, ScanPort(true));
    ss, acts := Extend(ss, acts, ScanPort(true));
    assert ss[|acts|].used == {PortAt(0), PortAt(1)} && ss[|acts|].poller.found == [PortAt(0), PortAt(1)];
    ss, acts := ScanNothing(ss, acts, 2);
  }
}
