/** The DERP map the controller serves: relays grouped by region code, regions keyed by a hash of the code. */
module DerpMap {
  import opened Wrappers

  // ---------------------------------------------------------------- region ids

  /** Region codes are byte strings, as Go strings are. */
  type Code = seq<bv8>

  const OFFSET_BASIS: bv32 := 2166136261
  const FNV_PRIME: bv32 := 16777619

  /** The 32-bit FNV-1a hash, with its wrap-around multiplication. */
  function Fnv1a(bytes: Code): bv32 {
    if bytes == [] then OFFSET_BASIS
    else (Fnv1a(bytes[..|bytes| - 1]) ^ (bytes[|bytes| - 1] as bv32)) * FNV_PRIME
  }

  function StableRegionId(code: Code): int {
    900 + (Fnv1a(code) as int) % 100
  }

  /** The codes "in" and "er" share region 946. */
  lemma CollidingCodes()
    ensures StableRegionId([105, 110]) == StableRegionId([101, 114]) == 946
    ensures Fnv1a([]) == 0x811c9dc5 && Fnv1a([97]) == 0xe40c292c
  {
    assert Fnv1a([97][..0]) == OFFSET_BASIS;
    var m, n: Code := [105, 110], [101, 114];
    assert Fnv1a(m[..1][..0]) == OFFSET_BASIS;
    assert Fnv1a(m[..1]) == 3960223172;
    assert Fnv1a(m) == 1094220446;
  }

  // ---------------------------------------------------------------- relays and regions

  /** The published URL and addresses of a node are left abstract; `buildDERPMap` only sets the region id. */
  datatype DERPNode = DERPNode(name: string, regionId: int, hostName: string, derpPort: int)

  /** A string in the source; only `unhealthy` matters here. */
  datatype RelayStatus = Healthy | Degraded | Unhealthy | Unrecognised(text: string)

  /** `node` is what `relayToDERPNode` returns: `None` when the public URL is not usable. */
  datatype RelayNode = RelayNode(id: string, region: Code, status: RelayStatus, node: Option<DERPNode>)

  const DEFAULT_CODE: Code := [100, 101, 102, 97, 117, 108, 116]

  predicate Eligible(r: RelayNode) {
    !r.status.Unhealthy? && r.node.Some?
  }

  function CodeOf(r: RelayNode): Code {
    if r.region == [] then DEFAULT_CODE else r.region
  }

  function NodeOf(r: RelayNode): DERPNode
    requires Eligible(r)
  {
    r.node.value.(regionId := StableRegionId(CodeOf(r)))
  }

  function Codes(relays: seq<RelayNode>): set<Code> {
    set r | r in relays && Eligible(r) :: CodeOf(r)
  }

  /** The nodes of the eligible relays whose code is in `codes`, in the order of the relays. */
  function NodesIn(relays: seq<RelayNode>, codes: set<Code>): seq<DERPNode> {
    if relays == [] then []
    else
      var last := relays[|relays| - 1];
      NodesIn(relays[..|relays| - 1], codes) + if Eligible(last) && CodeOf(last) in codes then [NodeOf(last)] else []
  }

  datatype Region = Region(regionId: int, regionCode: Code, regionName: Code, nodes: seq<DERPNode>)

  function RegionOf(relays: seq<RelayNode>, code: Code): Region {
    Region(StableRegionId(code), code, code, NodesIn(relays, {code}))
  }

  /** The region map when the codes are visited in this order: a later code replaces an earlier one with the
      same id. */
  function Assemble(relays: seq<RelayNode>, order: seq<Code>): map<int, Region> {
    if order == [] then map[]
    else
      var code := order[|order| - 1];
      Assemble(relays, order[..|order| - 1])[StableRegionId(code) := RegionOf(relays, code)]
  }

  lemma AssembleNext(relays: seq<RelayNode>, order: seq<Code>, code: Code)
    ensures Assemble(relays, order + [code]) == Assemble(relays, order)[StableRegionId(code) := RegionOf(relays, code)]
  {
    assert (order + [code])[..|order|] == order;
  }

  /** One visit of every key of a map, in any order. */
  ghost predicate IsOrder(order: seq<Code>, codes: set<Code>) {
    && (forall c :: c in order <==> c in codes)
    && (forall i, j :: 0 <= i < j < |order| ==> order[i] != order[j])
  }

  lemma OrderNext(order: seq<Code>, codes: set<Code>, code: Code)
    requires IsOrder(order, codes) && code !in codes
    ensures IsOrder(order + [code], codes + {code})
  {
  }

  lemma MoveOver<T>(todo: set<T>, done: set<T>, x: T)
    requires todo !! done && x in todo
    ensures todo - {x} + (done + {x}) == todo + done && todo - {x} !! done + {x}
  {
  }

  // ---------------------------------------------------------------- buildDERPMap

  class DERPRegion {
    const regionId: int
    const regionCode: Code
    const regionName: Code
    var nodes: seq<DERPNode>

    constructor (id: int, code: Code)
      ensures regionId == id && regionCode == code && regionName == code && nodes == []
    {
      regionId, regionCode, regionName, nodes := id, code, code, [];
    }

    function Value(): Region
      reads this
    {
      Region(regionId, regionCode, regionName, nodes)
    }
  }

  ghost function View<K>(regions: map<K, DERPRegion>): map<K, Region>
    reads regions.Values
  {
    map k | k in regions :: regions[k].Value()
  }

  lemma ViewUpdate<K>(regions: map<K, DERPRegion>, k: K, region: DERPRegion)
    ensures View(regions[k := region]) == View(regions)[k := region.Value()]
  {
  }

  predicate Separate<K>(regions: map<K, DERPRegion>) {
    forall k, l :: k in regions && l in regions && k != l ==> regions[k] != regions[l]
  }

  /** What grouping by code amounts to: for each code that occurs, its region with its nodes in order. */
  function Groups(relays: seq<RelayNode>): map<Code, Region> {
    map c | c in Codes(relays) :: RegionOf(relays, c)
  }

  lemma {:induction false} NoNodes(relays: seq<RelayNode>, code: Code)
    requires code !in Codes(relays)
    ensures NodesIn(relays, {code}) == []
  {
    if relays != [] {
      var before := relays[..|relays| - 1];
      assert forall r :: r in before ==> r in relays;
      NoNodes(before, code);
    }
  }

  lemma CodesNext(relays: seq<RelayNode>, next: RelayNode)
    ensures Codes(relays + [next]) == Codes(relays) + if Eligible(next) then {CodeOf(next)} else {}
  {
    assert forall r :: r in relays + [next] <==> r in relays || r == next;
  }

  lemma NodesNext(relays: seq<RelayNode>, next: RelayNode, codes: set<Code>)
    ensures NodesIn(relays + [next], codes) ==
            NodesIn(relays, codes) + if Eligible(next) && CodeOf(next) in codes then [NodeOf(next)] else []
  {
    assert (relays + [next])[..|relays|] == relays;
  }

  function GroupFor(groups: map<Code, Region>, code: Code): Region {
    if code in groups then groups[code] else Region(StableRegionId(code), code, code, [])
  }

  function WithNode(groups: map<Code, Region>, code: Code, node: DERPNode): map<Code, Region> {
    groups[code := GroupFor(groups, code).(nodes := GroupFor(groups, code).nodes + [node])]
  }

  lemma GroupNext(relays: seq<RelayNode>, next: RelayNode)
    ensures Groups(relays + [next]) ==
            if Eligible(next) then WithNode(Groups(relays), CodeOf(next), NodeOf(next)) else Groups(relays)
  {
    var all := relays + [next];
    CodesNext(relays, next);
    forall c | c in Codes(all)
      ensures RegionOf(all, c) ==
              if Eligible(next) then WithNode(Groups(relays), CodeOf(next), NodeOf(next))[c] else Groups(relays)[c]
    {
      NodesNext(relays, next, {c});
      if c !in Codes(relays) {
        NoNodes(relays, c);
      }
    }
  }

  method AppendNode(byCode: map<Code, DERPRegion>, code: Code, node: DERPNode)
    requires Separate(byCode) && code in byCode
    modifies byCode[code]
    ensures View(byCode) == WithNode(old(View(byCode)), code, node)
  {
    var region := byCode[code];
    region.nodes := region.nodes + [node];
  }

  /** The region of a code, created on its first relay. */
  method Ensure(byCode: map<Code, DERPRegion>, code: Code) returns (after: map<Code, DERPRegion>)
    requires Separate(byCode)
    ensures Separate(after) && code in after && fresh(after.Values - byCode.Values)
    ensures View(after) == View(byCode)[code := GroupFor(View(byCode), code)]
    ensures after[code].regionId == if code in byCode then byCode[code].regionId else StableRegionId(code)
  {
    after := byCode;
    if code !in byCode {
      var region := new DERPRegion(StableRegionId(code), code);
      after := after[code := region];
    }
  }

  method AddRelay(byCode: map<Code, DERPRegion>, relay: RelayNode) returns (after: map<Code, DERPRegion>)
    requires Separate(byCode) && Eligible(relay)
    requires CodeOf(relay) in byCode ==> byCode[CodeOf(relay)].regionId == StableRegionId(CodeOf(relay))
    modifies byCode.Values
    ensures Separate(after) && fresh(after.Values - byCode.Values)
    ensures View(after) == WithNode(old(View(byCode)), CodeOf(relay), NodeOf(relay))
  {
    var node := relay.node.value;
    var code := if relay.region == [] then DEFAULT_CODE else relay.region;
    after := Ensure(byCode, code);
    AppendNode(after, code, node.(regionId := after[code].regionId));
  }

  method GroupByCode(relays: seq<RelayNode>) returns (byCode: map<Code, DERPRegion>)
    ensures fresh(byCode.Values) && Separate(byCode) && View(byCode) == Groups(relays)
  {
    byCode := map[];
    for i := 0 to |relays|
      invariant fresh(byCode.Values) && Separate(byCode) && View(byCode) == Groups(relays[..i])
    {
      var relay := relays[i];
      assert relays[..i + 1] == relays[..i] + [relay];
      GroupNext(relays[..i], relay);
      if relay.status.Unhealthy? || relay.node.None? {
        continue;
      }
      assert CodeOf(relay) in byCode ==> View(byCode)[CodeOf(relay)] == RegionOf(relays[..i], CodeOf(relay));
      byCode := AddRelay(byCode, relay);
    }
    assert relays[..|relays|] == relays;
  }

  /** Regions are keyed by id, in whatever order the map of codes is visited. */
  method BuildDERPMap(relays: seq<RelayNode>) returns (regions: map<int, DERPRegion>)
    ensures exists order :: IsOrder(order, Codes(relays)) && View(regions) == Assemble(relays, order)
  {
    var byCode := GroupByCode(relays);
    regions := map[];
    ghost var order: seq<Code> := [];
    var todo := byCode.Keys;
    ghost var visited: set<Code> := {};
    assert View(byCode).Keys == byCode.Keys == Codes(relays);
    while todo != {}
      modifies {}
      invariant todo + visited == byCode.Keys && todo !! visited && IsOrder(order, visited)
      invariant View(regions) == Assemble(relays, order)
      decreases todo
    {
      var code :| code in todo;
      var region := byCode[code];
      assert region.Value() == View(byCode)[code] == RegionOf(relays, code);
      AssembleNext(relays, order, code);
      OrderNext(order, visited, code);
      MoveOver(todo, visited, code);
      ViewUpdate(regions, region.regionId, region);
      visited, todo, order := visited + {code}, todo - {code}, order + [code];
      regions := regions[region.regionId := region];
    }
  }

  // ---------------------------------------------------------------- what the map holds

  /** What every visiting order agrees on: which ids there are, and that each holds the whole of one code
      with that id. */
  ghost predicate WellFormed(relays: seq<RelayNode>, m: map<int, Region>) {
    forall id :: id in m ==>
      && 900 <= id < 1000 && m[id].regionId == id && StableRegionId(m[id].regionCode) == id
      && m[id].regionCode in Codes(relays) && m[id] == RegionOf(relays, m[id].regionCode)
  }

  lemma {:induction false} AssembleWellFormed(relays: seq<RelayNode>, order: seq<Code>)
    requires forall c :: c in order ==> c in Codes(relays)
    ensures WellFormed(relays, Assemble(relays, order))
    ensures Assemble(relays, order).Keys == set c | c in order :: StableRegionId(c)
  {
    if order != [] {
      var before, code := order[..|order| - 1], order[|order| - 1];
      assert order == before + [code];
      assert forall c :: c in order <==> c in before || c == code;
      AssembleWellFormed(relays, before);
    }
  }

  lemma {:induction false} IntervalBound(s: set<int>, low: int, high: int)
    requires low <= high && forall x :: x in s ==> low <= x < high
    ensures |s| <= high - low
    decreases high - low
  {
    if low < high {
      IntervalBound(s - {high - 1}, low, high - 1);
      assert |s| <= |s - {high - 1}| + 1;
    } else {
      assert s == {};
    }
  }

  lemma {:induction false} NodesCarryTheirRegion(relays: seq<RelayNode>, code: Code)
    ensures forall node :: node in NodesIn(relays, {code}) ==> node.regionId == StableRegionId(code)
  {
    if relays != [] {
      NodesCarryTheirRegion(relays[..|relays| - 1], code);
    }
  }

  /** There are at most 100 regions, whatever the relays: exactly one for each id that a code hashes to. */
  lemma RegionsAreExact(relays: seq<RelayNode>, order: seq<Code>)
    requires IsOrder(order, Codes(relays))
    ensures var m := Assemble(relays, order);
            && WellFormed(relays, m) && (forall id :: id in m ==> m[id].regionName == m[id].regionCode)
            && m.Keys == (set c | c in Codes(relays) :: StableRegionId(c)) && |m| <= 100
            && forall id, node :: id in m && node in m[id].nodes ==> node.regionId == id
  {
    AssembleWellFormed(relays, order);
    var m := Assemble(relays, order);
    forall id | id in m ensures forall node :: node in m[id].nodes ==> node.regionId == id {
      NodesCarryTheirRegion(relays, m[id].regionCode);
    }
    IntervalBound(Assemble(relays, order).Keys, 900, 1000);
  }

  /** The relay is served under this code: it is not unhealthy and has a node, and its region is the code, which is
      "default" for a relay without one. */
  predicate ServedUnder(r: RelayNode, code: Code) {
    && r.status != Unhealthy && r.node.Some?
    && code == if r.region == [] then [100, 101, 102, 97, 117, 108, 116] else r.region
  }

  /** The node is the relay's, but for the region id. */
  predicate IsNodeOf(node: DERPNode, r: RelayNode, id: int) {
    && r.node.Some? && node.regionId == id && node.name == r.node.value.name
    && node.hostName == r.node.value.hostName && node.derpPort == r.node.value.derpPort
  }

  lemma ServedNext(relays: seq<RelayNode>, code: Code)
    requires relays != []
    ensures var before, last := relays[..|relays| - 1], relays[|relays| - 1];
            var was, nodes := RegionOf(before, code).nodes, RegionOf(relays, code).nodes;
            if ServedUnder(last, code)
            then |nodes| == |was| + 1 && nodes[..|was|] == was && IsNodeOf(nodes[|was|], last, StableRegionId(code))
            else nodes == was
  {
    assert relays == relays[..|relays| - 1] + [relays[|relays| - 1]];
    NodesNext(relays[..|relays| - 1], relays[|relays| - 1], {code});
  }

  /** The nodes of a code's region, one by one: those of the relays served under the code, in the order of the relays,
      each as it was but for the region id. */
  lemma {:induction false} RegionNodesExactly(relays: seq<RelayNode>, code: Code) returns (at: seq<nat>)
    ensures Places(relays, (r: RelayNode) => ServedUnder(r, code), at)
    ensures |RegionOf(relays, code).nodes| == |at| && forall i :: 0 <= i < |at| ==> at[i] < |relays|
    ensures forall i :: 0 <= i < |at| ==>
              IsNodeOf(RegionOf(relays, code).nodes[i], relays[at[i]], StableRegionId(code))
  {
    at := [];
    if relays != [] {
      var n := |relays| - 1;
      var before := RegionNodesExactly(relays[..n], code);
      at := if ServedUnder(relays[n], code) then before + [n] else before;
      PlacesNext(relays, (r: RelayNode) => ServedUnder(r, code), before, at);
      ServedNext(relays, code);
    }
  }

  lemma {:induction false} SomeOrder(codes: set<Code>) returns (order: seq<Code>)
    ensures IsOrder(order, codes)
    decreases codes
  {
    order := [];
    if c :| c in codes {
      var rest := SomeOrder(codes - {c});
      OrderNext(rest, codes - {c}, c);
      order := rest + [c];
      assert codes - {c} + {c} == codes;
    }
  }

  predicate Holds(m: map<int, Region>, region: Region) {
    region.regionId in m && m[region.regionId] == region
  }

  /** Among codes that share an id, each one survives, with all its nodes, for some visiting order. */
  lemma AnyCodeMaySurvive(relays: seq<RelayNode>, code: Code)
    requires code in Codes(relays)
    ensures exists order :: IsOrder(order, Codes(relays)) && Holds(Assemble(relays, order), RegionOf(relays, code))
  {
    var rest := SomeOrder(Codes(relays) - {code});
    OrderNext(rest, Codes(relays) - {code}, code);
    assert Codes(relays) - {code} + {code} == Codes(relays);
    AssembleNext(relays, rest, code);
  }

  // ---------------------------------------------------------------- which relays are served

  function Survivors(m: map<int, Region>, low: int): set<Code> {
    set id | id in m && low <= id :: m[id].regionCode
  }

  function AllNodes(m: map<int, Region>, low: int): seq<DERPNode>
    decreases 1000 - low
  {
    if low >= 1000 then [] else (if low in m then m[low].nodes else []) + AllNodes(m, low + 1)
  }

  lemma {:induction false} NodesSplit(relays: seq<RelayNode>, a: set<Code>, b: set<Code>)
    requires a !! b
    ensures multiset(NodesIn(relays, a + b)) == multiset(NodesIn(relays, a)) + multiset(NodesIn(relays, b))
  {
    if relays != [] {
      NodesSplit(relays[..|relays| - 1], a, b);
    }
  }

  lemma SurvivorsStep(relays: seq<RelayNode>, m: map<int, Region>, low: int)
    requires WellFormed(relays, m)
    ensures low !in m ==> Survivors(m, low) == Survivors(m, low + 1)
    ensures low in m ==> Survivors(m, low) == {m[low].regionCode} + Survivors(m, low + 1)
    ensures low in m ==> m[low].regionCode !in Survivors(m, low + 1)
  {
  }

  /** The nodes of the map are those of the relays whose codes survive, each once, for any visiting order. */
  lemma {:induction false} NodesConserved(relays: seq<RelayNode>, m: map<int, Region>, low: int)
    requires WellFormed(relays, m) && low <= 1000
    ensures multiset(AllNodes(m, low)) == multiset(NodesIn(relays, Survivors(m, low)))
    decreases 1000 - low
  {
    if low == 1000 {
      assert Survivors(m, low) == {};
      NobodyServed(relays);
    } else {
      NodesConserved(relays, m, low + 1);
      SurvivorsStep(relays, m, low);
      if low in m {
        NodesSplit(relays, {m[low].regionCode}, Survivors(m, low + 1));
      }
    }
  }

  lemma {:induction false} NobodyServed(relays: seq<RelayNode>)
    ensures NodesIn(relays, {}) == []
  {
    if relays != [] {
      NobodyServed(relays[..|relays| - 1]);
    }
  }

  lemma {:induction false} SomebodyServed(relays: seq<RelayNode>, codes: set<Code>, code: Code)
    requires code in codes && code in Codes(relays)
    ensures NodesIn(relays, codes) != []
  {
    var before, last := relays[..|relays| - 1], relays[|relays| - 1];
    assert relays == before + [last];
    if !(Eligible(last) && CodeOf(last) == code) {
      CodesNext(before, last);
      SomebodyServed(before, codes, code);
    }
  }

  function EligibleNodes(relays: seq<RelayNode>): seq<DERPNode> {
    if relays == [] then []
    else
      var last := relays[|relays| - 1];
      EligibleNodes(relays[..|relays| - 1]) + if Eligible(last) then [NodeOf(last)] else []
  }

  lemma {:induction false} AllCodesServed(relays: seq<RelayNode>, codes: set<Code>)
    requires Codes(relays) <= codes
    ensures NodesIn(relays, codes) == EligibleNodes(relays)
  {
    if relays != [] {
      var before, last := relays[..|relays| - 1], relays[|relays| - 1];
      assert relays == before + [last];
      CodesNext(before, last);
      AllCodesServed(before, codes);
    }
  }

  predicate NoCollision(codes: set<Code>) {
    forall c, d :: c in codes && d in codes && StableRegionId(c) == StableRegionId(d) ==> c == d
  }

  lemma SurvivorsAreAll(m: map<int, Region>, codes: set<Code>)
    requires forall id :: id in m ==> 900 <= id && m[id].regionCode in codes && StableRegionId(m[id].regionCode) == id
    requires forall c :: c in codes ==> StableRegionId(c) in m
    ensures Survivors(m, 900) <= codes && (Survivors(m, 900) == codes <==> NoCollision(codes))
  {
    if NoCollision(codes) {
      forall c | c in codes ensures c in Survivors(m, 900) {
        assert m[StableRegionId(c)].regionCode == c;
      }
    } else {
      var c, d :| c in codes && d in codes && StableRegionId(c) == StableRegionId(d) && c != d;
      assert c !in Survivors(m, 900) || d !in Survivors(m, 900);
    }
  }

  lemma NothingLost(relays: seq<RelayNode>, kept: set<Code>)
    requires kept <= Codes(relays)
    ensures multiset(NodesIn(relays, kept)) == multiset(EligibleNodes(relays)) <==> kept == Codes(relays)
  {
    var lost := Codes(relays) - kept;
    AllCodesServed(relays, Codes(relays));
    if c :| c in lost {
      assert kept + lost == Codes(relays);
      NodesSplit(relays, kept, lost);
      SomebodyServed(relays, lost, c);
      assert |multiset(NodesIn(relays, lost))| == |NodesIn(relays, lost)|;
    } else {
      assert kept == Codes(relays);
    }
  }

  /** Every eligible relay is in the map exactly once, for any visiting order, if and only if no two codes
      that occur share an id. */
  lemma EveryRelayServedExactly(relays: seq<RelayNode>, order: seq<Code>)
    requires IsOrder(order, Codes(relays))
    ensures multiset(AllNodes(Assemble(relays, order), 900)) == multiset(EligibleNodes(relays)) <==>
            NoCollision(Codes(relays))
  {
    var m := Assemble(relays, order);
    RegionsAreExact(relays, order);
    SurvivorsAreAll(m, Codes(relays));
    NodesConserved(relays, m, 900);
    NothingLost(relays, Survivors(m, 900));
  }
}
