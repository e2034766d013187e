/** The four LRU sets of the key-value store, under any request sequence and any evictions. */
module KvCache {
  import opened Words

  const SETS_NR: int := 4
  const SETS_BLOCKS: nat := 500

  datatype Option<T> = None | Some(value: T)

  type Block = map<u32, u32>

  datatype Cache = Cache(blk1: Block, blk2: Block, blk3: Block, blk4: Block)

  const EMPTY: Cache := Cache(map[], map[], map[], map[])

  /** get_set: which block a bucket number selects; a number outside 1..4 falls to the first. */
  function GetSet(v: int): nat {
    match v
    case 1 => 1
    case 2 => 2
    case 3 => 3
    case 4 => 4
    case _ => 1
  }

  function Route(key: u32): nat {
    GetSet(key % SETS_NR)
  }

  function Select(c: Cache, i: nat): Block {
    match i
    case 2 => c.blk2
    case 3 => c.blk3
    case 4 => c.blk4
    case _ => c.blk1
  }

  function Replace(c: Cache, i: nat, m: Block): Cache {
    match i
    case 2 => c.(blk2 := m)
    case 3 => c.(blk3 := m)
    case 4 => c.(blk4 := m)
    case _ => c.(blk1 := m)
  }

  function Put(c: Cache, key: u32, val: u32, victims: set<u32>): Cache {
    Replace(c, Route(key), (Select(c, Route(key)) - victims)[key := val])
  }

  function Find<T>(m: map<u32, T>, key: u32): Option<T> {
    if key in m then Some(m[key]) else None
  }

  function Get(c: Cache, key: u32): Option<u32> {
    Find(Select(c, Route(key)), key)
  }

  /** What is assumed of the map: an update drops other keys of the set only to make room for its own. */
  ghost predicate EvictionOk(m: Block, key: u32, victims: set<u32>) {
    && victims <= m.Keys - {key}
    && (victims != {} ==> |m.Keys + {key}| > SETS_BLOCKS)
    && |m.Keys - victims + {key}| <= SETS_BLOCKS
  }

  // ----- request sequences -----

  /** A write names the keys that the map dropped while serving it. */
  datatype Request = Write(key: u32, val: u32, victims: set<u32>) | Read(key: u32)

  function Step(c: Cache, r: Request): Cache {
    match r
    case Write(key, val, victims) => Put(c, key, val, victims)
    case Read(_) => c
  }

  ghost predicate StepOk(c: Cache, r: Request) {
    r.Write? ==> EvictionOk(Select(c, Route(r.key)), r.key, r.victims)
  }

  function Last<T>(s: seq<T>): T
    requires s != []
  {
    s[|s| - 1]
  }

  function Front<T>(s: seq<T>): seq<T>
    requires s != []
  {
    s[..|s| - 1]
  }

  function Run(reqs: seq<Request>): Cache {
    if reqs == [] then EMPTY else Step(Run(Front(reqs)), Last(reqs))
  }

  ghost predicate Legal(reqs: seq<Request>) {
    reqs == [] || (Legal(Front(reqs)) && StepOk(Run(Front(reqs)), Last(reqs)))
  }

  /** The plain map: the latest write to each key. */
  function Latest(reqs: seq<Request>): map<u32, u32> {
    if reqs == [] then map[]
    else match Last(reqs)
      case Write(key, val, _) => Latest(Front(reqs))[key := val]
      case Read(_) => Latest(Front(reqs))
  }

  /** The key was written, and no later write dropped it. */
  predicate Kept(reqs: seq<Request>, key: u32) {
    reqs != [] &&
    match Last(reqs)
    case Write(k, _, victims) => k == key || (Kept(Front(reqs), key) && key !in victims)
    case Read(_) => Kept(Front(reqs), key)
  }

  /** The distinct keys written so far that a set has to serve. */
  function Seen(reqs: seq<Request>, i: nat): set<u32> {
    if reqs == [] then {}
    else match Last(reqs)
      case Write(key, _, _) => Seen(Front(reqs), i) + if Route(key) == i then {key} else {}
      case Read(_) => Seen(Front(reqs), i)
  }

  // ----- routing -----

  /** Bucket 0 falls to the first set and bucket 4 does not exist, so one set serves half of all keys. */
  lemma RouteValues(key: u32)
    ensures Route(key) == if key % 4 <= 1 then 1 else key % 4
  {
  }

  ghost predicate Routed(c: Cache) {
    forall i, k :: 1 <= i <= 4 && k in Select(c, i) ==> Route(k) == i
  }

  ghost predicate Bounded(c: Cache) {
    forall i :: 1 <= i <= 4 ==> |Select(c, i)| <= SETS_BLOCKS
  }

  lemma PutSelect(c: Cache, key: u32, val: u32, victims: set<u32>, i: nat)
    requires 1 <= i <= 4
    ensures Select(Put(c, key, val, victims), i)
         == if i == Route(key) then (Select(c, i) - victims)[key := val] else Select(c, i)
  {
    hide Route;
    RouteValues(key);
  }

  lemma BlockAfter(m: Block, key: u32, val: u32, victims: set<u32>)
    requires EvictionOk(m, key, victims)
    ensures |(m - victims)[key := val]| <= SETS_BLOCKS
    ensures (m - victims)[key := val].Keys <= m.Keys + {key}
  {
    assert (m - victims)[key := val].Keys == m.Keys - victims + {key};
  }

  lemma PutRoutes(c: Cache, key: u32, val: u32, victims: set<u32>)
    requires Routed(c) && Bounded(c) && EvictionOk(Select(c, Route(key)), key, victims)
    ensures Routed(Put(c, key, val, victims)) && Bounded(Put(c, key, val, victims))
  {
    hide Route, Put, Select, EvictionOk;
    var d := Put(c, key, val, victims);
    forall i | 1 <= i <= 4
      ensures |Select(d, i)| <= SETS_BLOCKS && forall k :: k in Select(d, i) ==> Route(k) == i
    {
      PutSelect(c, key, val, victims, i);
      if i == Route(key) {
        BlockAfter(Select(c, i), key, val, victims);
      }
    }
  }

  lemma EmptyRoutes()
    ensures Routed(EMPTY) && Bounded(EMPTY)
  {
    hide Route;
    assert forall i :: 1 <= i <= 4 ==> Select(EMPTY, i) == map[];
  }

  /** In every run a key is held only by the set it routes to, and no set holds more than 500 keys. */
  lemma {:induction false} RunRoutes(reqs: seq<Request>)
    requires Legal(reqs)
    ensures Routed(Run(reqs)) && Bounded(Run(reqs))
    ensures forall i :: 1 <= i <= 4 ==> |Select(Run(reqs), i)| <= 500
  {
    hide Put, Route, Select, EvictionOk, Routed, Bounded;
    if reqs == [] {
      EmptyRoutes();
    } else {
      RunRoutes(Front(reqs));
      match Last(reqs)
      case Write(key, val, victims) => PutRoutes(Run(Front(reqs)), key, val, victims);
      case Read(_) =>
    }
    BoundIs(Run(reqs));
  }

  lemma BoundIs(c: Cache)
    requires Bounded(c)
    ensures forall i :: 1 <= i <= 4 ==> |Select(c, i)| <= 500
  {
    hide Select;
  }

  function Size(c: Cache): nat {
    |c.blk1| + |c.blk2| + |c.blk3| + |c.blk4|
  }

  /** The fourth set is never used, so the cache never holds more than 1500 keys. */
  lemma FourthSetUnused(reqs: seq<Request>)
    requires Legal(reqs)
    ensures Run(reqs).blk4 == map[]
    ensures Size(Run(reqs)) <= 1500
  {
    hide Run, Route;
    RunRoutes(reqs);
    var c := Run(reqs);
    var m := Select(c, 4);
    if k :| k in m {
      RouteValues(k);
    }
    assert m == map[];
    assert |Select(c, 1)| <= SETS_BLOCKS && |Select(c, 2)| <= SETS_BLOCKS && |Select(c, 3)| <= SETS_BLOCKS;
  }

  lemma HeldInOneSet(reqs: seq<Request>, key: u32, i: nat, j: nat)
    requires Legal(reqs) && 1 <= i <= 4 && 1 <= j <= 4
    requires key in Select(Run(reqs), i) && key in Select(Run(reqs), j)
    ensures i == j == Route(key)
  {
    hide Run, Route, Select;
    RunRoutes(reqs);
    var c := Run(reqs);
    assert Routed(c);
    assert Route(key) == i;
    assert Route(key) == j;
  }

  // ----- what a lookup returns -----

  lemma PutGet(c: Cache, key: u32, val: u32, victims: set<u32>, k: u32)
    requires Routed(c) && EvictionOk(Select(c, Route(key)), key, victims)
    ensures Get(Put(c, key, val, victims), k)
         == if k == key then Some(val) else if k in victims then None else Get(c, k)
  {
    hide Route, Put, Select;
    RouteValues(key);
    RouteValues(k);
    PutSelect(c, key, val, victims, Route(k));
    if k in victims {
      assert k in Select(c, Route(key));
    }
  }

  /** A lookup finds a key exactly when it is kept, and then it returns the latest value written to it. */
  lemma {:induction false} GetIsLatest(reqs: seq<Request>, k: u32)
    requires Legal(reqs)
    ensures Kept(reqs, k) ==> k in Latest(reqs)
    ensures Get(Run(reqs), k) == if Kept(reqs, k) then Some(Latest(reqs)[k]) else None
  {
    hide Put, Get, Route, EvictionOk;
    if reqs == [] {
      GetEmpty(k);
    } else {
      GetIsLatest(Front(reqs), k);
      match Last(reqs)
      case Write(key, val, victims) =>
        RunRoutes(Front(reqs));
        PutGet(Run(Front(reqs)), key, val, victims, k);
      case Read(_) =>
    }
  }

  lemma GetEmpty(k: u32)
    ensures Get(EMPTY, k) == None
  {
  }

  // ----- while there is room -----

  lemma SubsetSize(a: set<u32>, b: set<u32>)
    requires a <= b
    ensures |a| <= |b|
  {
    assert b == a + (b - a);
  }

  lemma {:induction false} KeysSeen(reqs: seq<Request>, i: nat)
    requires Legal(reqs) && 1 <= i <= 4
    ensures Select(Run(reqs), i).Keys <= Seen(reqs, i)
  {
    hide Route, EvictionOk;
    if reqs != [] {
      KeysSeen(Front(reqs), i);
      match Last(reqs)
      case Write(key, _, _) => RouteValues(key);
      case Read(_) =>
    }
  }

  /** As long as no set has seen more than 500 distinct keys, nothing is dropped. */
  lemma {:induction false} AllKept(reqs: seq<Request>, k: u32)
    requires Legal(reqs)
    requires forall i :: 1 <= i <= 4 ==> |Seen(reqs, i)| <= SETS_BLOCKS
    ensures Kept(reqs, k) <==> k in Latest(reqs)
  {
    hide Route, Run;
    if reqs != [] {
      var before := Front(reqs);
      forall i | 1 <= i <= 4 ensures |Seen(before, i)| <= SETS_BLOCKS {
        SubsetSize(Seen(before, i), Seen(reqs, i));
      }
      AllKept(before, k);
      match Last(reqs)
      case Write(key, _, victims) =>
        var i := Route(key);
        RouteValues(key);
        KeysSeen(before, i);
        SubsetSize(Select(Run(before), i).Keys + {key}, Seen(reqs, i));
        assert victims == {};
      case Read(_) =>
    }
  }

  /** While every set has seen at most 500 distinct keys, the cache is the plain map. */
  lemma AgreesWithPlainMap(reqs: seq<Request>, k: u32)
    requires Legal(reqs)
    requires forall i :: 1 <= i <= 4 ==> |Seen(reqs, i)| <= SETS_BLOCKS
    ensures Get(Run(reqs), k) == Find(Latest(reqs), k)
  {
    hide Get, Run, Kept, Legal;
    AllKept(reqs, k);
    GetIsLatest(reqs, k);
  }
}
