/** CoreMark's list data and its comparators, which rewrite the data they compare. */
module CoreMarkData {
  import opened CoreMarkLinks

  /** cmp_complex() or cmp_idx() without results to update. */
  datatype Cmp = ByData | ByIdx

  /** What a nested benchmark answers for each datum, should it be asked: a datum is asked at most
      once before its cached answer is dropped, so any answers can be given as such a function. */
  type Bench = Data -> u16

  // ----- on values -----

  /** Bit 7: the low seven bits are a cached value. */
  predicate Cached(d: u16) {
    d % 256 >= 128
  }

  /** The backup in the upper byte. */
  function High(d: u16): (h: int)
    ensures 0 <= h < 256
  {
    d / 256
  }

  /** The data with its value calculated and cached; operations 0 and 1 are nested benchmarks. */
  function Calc(d: u16, b: u16): u16 {
    if Cached(d) then d else High(d) * 256 + 128 + (if d % 8 <= 1 then b else d) % 128
  }

  /** The data with its low byte set from the backup in the high byte. */
  function Regen(d: u16): u16 {
    High(d) * 256 + High(d)
  }

  function Touch(c: Cmp, d: u16, b: u16): u16 {
    match c
    case ByData => Calc(d, b)
    case ByIdx => Regen(d)
  }

  /** The key a comparator orders by. */
  function KeyOf(c: Cmp, d: u16, idx: int, b: u16): int {
    match c
    case ByData => Calc(d, b) % 128
    case ByIdx => idx
  }

  lemma CalcTwice(d: u16, b: u16)
    ensures Calc(Calc(d, b), b) == Calc(d, b) && Cached(Calc(d, b)) && High(Calc(d, b)) == High(d)
  {
  }

  lemma RegenTwice(d: u16)
    ensures Regen(Regen(d)) == Regen(d) && High(Regen(d)) == High(d)
  {
  }

  /** Touching again changes nothing, and neither the key nor the backup is ever changed. */
  lemma TouchTwice(c: Cmp, d: u16, b: u16, idx: int)
    ensures Touch(c, Touch(c, d, b), b) == Touch(c, d, b)
    ensures KeyOf(c, Touch(c, d, b), idx, b) == KeyOf(c, d, idx, b)
    ensures High(Touch(c, d, b)) == High(d)
  {
    hide Calc, Regen, Cached, High;
    CalcTwice(d, b);
    RegenTwice(d);
  }

  /** Data whose low byte equals its high byte, and no other, comes back whatever the low byte has become. */
  lemma RegenRestores(d: u16, e: u16)
    requires e / 256 == d / 256
    ensures Regen(e) == d <==> d % 256 == d / 256
  {
  }

  // ----- on the heap -----

  type Values = map<Data, u16>

  ghost function Datas(ds: set<Data>): Values
    reads ds`data16
  {
    map d | d in ds :: d.data16
  }

  /** Bit 7 and the seven below it. */
  lemma LowBits(d: u16)
    ensures Cached(d) <==> d / 128 % 2 == 1
    ensures Cached(d) ==> d % 256 == 128 + d % 128
  {
  }

  lemma Packed(h: int, v: int)
    requires 0 <= h < 256 && 0 <= v < 128
    ensures var d := h * 256 + 128 + v; d / 256 == h && d % 256 == 128 + v && d % 128 == v
  {
  }

  /** calc_func() */
  method CalcFunc(d: Data, bench: Bench) returns (v: int)
    modifies d`data16
    ensures d.data16 == Calc(old(d.data16), bench(d))
    ensures 0 <= v < 128 && v == d.data16 % 128 && d.data16 % 256 == 128 + v && d.data16 / 256 == old(d.data16) / 256
    ensures v == (if old(d.data16) / 128 % 2 == 0 && old(d.data16) % 8 in {0, 1} then bench(d) else old(d.data16)) % 128
  {
    var data := d.data16;
    LowBits(data);
    hide Cached;
    if data / 128 % 2 == 1 {
      return data % 128;
    }
    var flag := data % 8;
    var retval := if flag == 0 || flag == 1 then bench(d) else data;
    v := retval % 128;
    Packed(data / 256, v);
    d.data16 := data / 256 * 256 + 128 + v;
  }

  /** cmp_complex() */
  method CmpComplex(a: Data, b: Data, bench: Bench) returns (r: int)
    modifies a`data16, b`data16
    ensures a.data16 == Calc(old(a.data16), bench(a)) && b.data16 == Calc(old(b.data16), bench(b))
    ensures r == KeyOf(ByData, old(a.data16), a.idx, bench(a)) - KeyOf(ByData, old(b.data16), b.idx, bench(b))
    ensures a.data16 % 256 >= 128 && b.data16 % 256 >= 128 && r == a.data16 % 128 - b.data16 % 128
  {
    hide Calc, Cached;
    CalcTwice(a.data16, bench(a));
    var val1 := CalcFunc(a, bench);
    var val2 := CalcFunc(b, bench);
    r := val1 - val2;
  }

  /** cmp_idx() without results to update */
  method CmpIdx(a: Data, b: Data) returns (r: int)
    modifies a`data16, b`data16
    ensures a.data16 == Regen(old(a.data16)) && b.data16 == Regen(old(b.data16))
    ensures forall d :: d in {a, b} ==> d.data16 / 256 == old(d.data16) / 256 && d.data16 % 256 == old(d.data16) / 256
    ensures r == a.idx - b.idx
  {
    RegenTwice(a.data16);
    a.data16 := Regen(a.data16);
    b.data16 := Regen(b.data16);
    r := a.idx - b.idx;
  }

  /** The comparison the sort was given. */
  method Compare(c: Cmp, a: Data, b: Data, bench: Bench) returns (r: int)
    modifies a`data16, b`data16
    ensures a.data16 == Touch(c, old(a.data16), bench(a)) && b.data16 == Touch(c, old(b.data16), bench(b))
    ensures r <= 0 <==> KeyOf(c, old(a.data16), a.idx, bench(a)) <= KeyOf(c, old(b.data16), b.idx, bench(b))
  {
    hide Calc, Regen;
    match c
    case ByData => r := CmpComplex(a, b, bench);
    case ByIdx => r := CmpIdx(a, b);
  }

  /** The data of a list being sorted: as it was or touched, with the keys fixed in advance. */
  datatype Env = Env(cmp: Cmp, bench: Bench, info: map<Node, Data>, d0: Values, d1: Values, key: map<Node, int>)

  ghost predicate KeysKnown(e: Env, ns: set<Node>, ds: set<Data>)
    reads ns`info, ds`idx
  {
    forall n :: n in ns ==> n in e.info && n in e.key && n.info == e.info[n] && n.info in ds && n.info in e.d0
                            && e.key[n] == KeyOf(e.cmp, e.d0[n.info], n.info.idx, e.bench(n.info))
  }

  ghost predicate DataKnown(e: Env, cur: Values) {
    forall d :: d in cur ==> d in e.d0 && d in e.d1 && e.d1[d] == Touch(e.cmp, e.d0[d], e.bench(d))
                             && (cur[d] == e.d0[d] || cur[d] == e.d1[d])
  }

  ghost predicate Known(e: Env, ns: set<Node>, ds: set<Data>)
    reads ns`info, ds
  {
    KeysKnown(e, ns, ds) && DataKnown(e, Datas(ds))
  }

  lemma KnownNode(e: Env, ns: set<Node>, ds: set<Data>, n: Node)
    requires Known(e, ns, ds) && n in ns
    ensures n in e.key && n.info in ds && n.info in e.d0 && n.info in e.d1
    ensures e.d1[n.info] == Touch(e.cmp, e.d0[n.info], e.bench(n.info))
    ensures Touch(e.cmp, n.info.data16, e.bench(n.info)) == e.d1[n.info]
    ensures KeyOf(e.cmp, n.info.data16, n.info.idx, e.bench(n.info)) == e.key[n]
  {
    hide Touch, KeyOf;
    var d := n.info;
    assert d in Datas(ds);
    TouchTwice(e.cmp, e.d0[d], e.bench(d), d.idx);
  }

  /** The data of these nodes has been touched. */
  ghost predicate Touched(e: Env, cur: Values, s: seq<Node>) {
    forall n :: n in s ==> n in e.info && e.info[n] in cur && e.info[n] in e.d1 && cur[e.info[n]] == e.d1[e.info[n]]
  }

  /** What has been touched stays so. */
  ghost predicate Later(e: Env, cur: Values, cur': Values) {
    forall d :: d in cur && d in e.d1 && cur[d] == e.d1[d] ==> d in cur' && cur'[d] == e.d1[d]
  }

  lemma TouchedLater(e: Env, cur: Values, cur': Values, s: seq<Node>)
    requires Touched(e, cur, s) && Later(e, cur, cur')
    ensures Touched(e, cur', s)
  {
  }

  lemma LaterStill(e: Env, cur: Values, cur': Values, cur'': Values)
    requires Later(e, cur, cur') && Later(e, cur', cur'')
    ensures Later(e, cur, cur'')
  {
  }

  /** Comparing two nodes orders them by their keys and touches both. */
  method CompareNodes(e0: Cmp, bench: Bench, p: Node, q: Node, ghost e: Env, ghost ns: set<Node>, ghost ds: set<Data>)
    returns (r: int)
    requires e.cmp == e0 && e.bench == bench && Known(e, ns, ds) && p in ns && q in ns
    modifies ds`data16
    ensures Known(e, ns, ds)
    ensures r <= 0 <==> e.key[p] <= e.key[q]
    ensures Touched(e, Datas(ds), [p]) && Touched(e, Datas(ds), [q]) && Later(e, old(Datas(ds)), Datas(ds))
  {
    hide Touch, KeyOf;
    assert e.info[p] == p.info && e.info[q] == q.info;
    hide KeysKnown;
    KnownNode(e, ns, ds, p);
    KnownNode(e, ns, ds, q);
    ghost var a: Data, b: Data, cur: Values := p.info, q.info, Datas(ds);
    r := Compare(e0, p.info, q.info, bench);
    assert Datas(ds) == cur[a := e.d1[a]][b := e.d1[b]];
    TouchTwo(e, cur, Datas(ds), a, b);
  }

  lemma TouchTwo(e: Env, cur: Values, cur': Values, a: Data, b: Data)
    requires DataKnown(e, cur) && a in cur && b in cur && cur' == cur[a := e.d1[a]][b := e.d1[b]]
    ensures DataKnown(e, cur') && Later(e, cur, cur')
  {
    hide Touch;
  }
}
