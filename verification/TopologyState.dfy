/** The desired external displays: a canonical, generation-stamped store. */
module TopologyState {
  import opened Bytes
  import opened Options
  import opened TopologyCodec

  datatype UpdateResult = Applied | Unchanged | InvalidDisplay | DuplicateDisplayId | DuplicatePort

  datatype Update = Update(result: UpdateResult, generation: u64)

  const PRIMARY_DISPLAY_ID := 1
  const MINIMUM_DIMENSION := 320
  const MAXIMUM_DIMENSION := 7680
  const MINIMUM_DPI := 72
  const MAXIMUM_DPI := 640
  const MAXIMUM_REFRESH_RATE_HZ := 60
  const LAST_GENERATION: u64 := 0x7fff_ffff_ffff_ffff // generations run through 1..LAST_GENERATION

  // ---------- one display ----------

  predicate DistinctRates(rates: seq<u32>) {
    forall i, j :: 0 <= i < j < |rates| ==> rates[i] != rates[j]
  }

  predicate HasValidFields(d: Display) {
    && PRIMARY_DISPLAY_ID < d.displayId <= LAST_GENERATION && d.port != 0
    && MINIMUM_DIMENSION <= d.width <= MAXIMUM_DIMENSION && MINIMUM_DIMENSION <= d.height <= MAXIMUM_DIMENSION
    && MINIMUM_DPI <= d.dpi <= MAXIMUM_DPI && d.name != []
    && 0 < d.activeRefreshRate <= MAXIMUM_REFRESH_RATE_HZ
  }

  /** A display that can exist: its active rate is one of its distinct supported rates. */
  predicate IsValid(d: Display) {
    && HasValidFields(d)
    && (forall i :: 0 <= i < |d.refreshRates| ==> 0 < d.refreshRates[i] <= MAXIMUM_REFRESH_RATE_HZ)
    && DistinctRates(d.refreshRates)
    && d.activeRefreshRate in d.refreshRates
  }

  method IsValidDisplay(d: Display) returns (valid: bool)
    ensures valid <==> IsValid(d)
  {
    if !HasValidFields(d) || d.refreshRates == [] {
      return false;
    }
    var containsActiveRate := false;
    var refreshRates: set<u32> := {};
    for k := 0 to |d.refreshRates|
      invariant forall i :: 0 <= i < k ==> 0 < d.refreshRates[i] <= MAXIMUM_REFRESH_RATE_HZ
      invariant forall r :: r in refreshRates <==> r in d.refreshRates[..k]
      invariant DistinctRates(d.refreshRates[..k])
      invariant containsActiveRate <==> d.activeRefreshRate in d.refreshRates[..k]
    {
      var refreshRate := d.refreshRates[k];
      if refreshRate == 0 || refreshRate > MAXIMUM_REFRESH_RATE_HZ || refreshRate in refreshRates {
        return false;
      }
      assert d.refreshRates[..k + 1] == d.refreshRates[..k] + [refreshRate];
      refreshRates := refreshRates + {refreshRate};
      containsActiveRate := containsActiveRate || refreshRate == d.activeRefreshRate;
    }
    assert d.refreshRates[..|d.refreshRates|] == d.refreshRates;
    valid := containsActiveRate;
  }

  // ---------- lists of displays ----------

  ghost predicate SortedById(ds: Displays) {
    forall i, j :: 0 <= i < j < |ds| ==> ds[i].displayId <= ds[j].displayId
  }

  predicate Compatible(d: Display, e: Display) { d.displayId != e.displayId && d.port != e.port }

  /** Valid displays, no two of which share an id or a port: no matter in which order. */
  ghost predicate Acceptable(ds: Displays) {
    && (forall i :: 0 <= i < |ds| ==> IsValid(ds[i]))
    && forall i, j :: 0 <= i < j < |ds| ==> Compatible(ds[i], ds[j])
  }

  ghost predicate AcceptableBag(bag: multiset<Display>) {
    && (forall d :: d in bag ==> IsValid(d) && bag[d] == 1)
    && forall d, e :: d in bag && e in bag && d != e ==> Compatible(d, e)
  }

  /** What is stored: acceptable and strictly ascending by id. */
  ghost predicate IsTopology(ds: Displays) { Acceptable(ds) && Ascending(ds) }

  ghost predicate Ascending(ds: Displays) {
    forall i, j :: 0 <= i < j < |ds| ==> ds[i].displayId < ds[j].displayId
  }

  lemma {:induction false} SplitBag(ds: Displays, i: nat)
    requires i < |ds|
    ensures multiset(ds) == multiset(ds[..i]) + multiset{ds[i]} + multiset(ds[i + 1..])
  {
    assert ds == ds[..i] + [ds[i]] + ds[i + 1..];
  }

  lemma {:induction false} BagOfIndices(ds: Displays)
    requires Acceptable(ds)
    ensures AcceptableBag(multiset(ds))
  {
    hide IsValid;
    forall d | d in multiset(ds) ensures IsValid(d) && multiset(ds)[d] == 1 {
      var i :| 0 <= i < |ds| && ds[i] == d;
      SplitBag(ds, i);
      forall k | 0 <= k < |ds| && k != i ensures ds[k] != d {
        assert Compatible(ds[k], ds[i]) || Compatible(ds[i], ds[k]);
      }
    }
    forall d, e | d in multiset(ds) && e in multiset(ds) && d != e ensures Compatible(d, e) {
      var i :| 0 <= i < |ds| && ds[i] == d;
      var j :| 0 <= j < |ds| && ds[j] == e;
      assert Compatible(ds[i], ds[j]) || Compatible(ds[j], ds[i]);
    }
  }

  lemma {:induction false} IndicesOfBag(ds: Displays)
    requires AcceptableBag(multiset(ds))
    ensures Acceptable(ds)
  {
    hide IsValid;
    hide Compatible;
    assert forall i :: 0 <= i < |ds| ==> ds[i] in multiset(ds);
    forall i, j | 0 <= i < j < |ds| ensures Compatible(ds[i], ds[j]) {
      SplitBag(ds, j);
      assert ds[..j][i] == ds[i] && ds[i] in multiset(ds[..j]);
      assert ds[i] != ds[j];
    }
  }

  /** Acceptability does not depend on the order. */
  lemma {:induction false} AcceptableIsOrderFree(a: Displays, b: Displays)
    requires multiset(a) == multiset(b)
    ensures Acceptable(a) <==> Acceptable(b)
  {
    hide Acceptable;
    hide AcceptableBag;
    if Acceptable(a) {
      BagOfIndices(a);
      IndicesOfBag(b);
    }
    if Acceptable(b) {
      BagOfIndices(b);
      IndicesOfBag(a);
    }
  }

  lemma {:induction false} LastIsSame(a: Displays, b: Displays)
    requires multiset(a) == multiset(b) && Ascending(a) && SortedById(b) && |a| == |b| && a != []
    ensures a[|a| - 1] == b[|a| - 1]
  {
    var n := |a| - 1;
    assert a[n] in multiset(b) && b[n] in multiset(a);
    var j :| 0 <= j <= n && b[j] == a[n];
    var k :| 0 <= k <= n && a[k] == b[n];
    assert b[j].displayId <= b[n].displayId;
  }

  lemma {:induction false} FrontsAgree(a: Displays, b: Displays)
    requires multiset(a) == multiset(b) && |a| == |b| && a != [] && a[|a| - 1] == b[|a| - 1]
    ensures multiset(a[..|a| - 1]) == multiset(b[..|a| - 1])
  {
    var n := |a| - 1;
    assert a == a[..n] + [a[n]] && b == b[..n] + [b[n]];
    assert multiset(a[..n]) == multiset(a) - multiset{a[n]} && multiset(b[..n]) == multiset(b) - multiset{b[n]};
  }

  /** There is one way to sort displays with distinct ids. */
  lemma {:induction false} SortingIsUnique(a: Displays, b: Displays)
    requires multiset(a) == multiset(b) && Ascending(a) && SortedById(b)
    ensures a == b
    decreases |a|
  {
    assert |multiset(a)| == |a| && |multiset(b)| == |b|;
    if a != [] {
      var n := |a| - 1;
      LastIsSame(a, b);
      FrontsAgree(a, b);
      assert Ascending(a[..n]) && SortedById(b[..n]);
      hide Ascending;
      hide SortedById;
      SortingIsUnique(a[..n], b[..n]);
      assert a == a[..n] + [a[n]] && b == b[..n] + [b[n]];
    }
  }

  function Insert(d: Display, ds: Displays): Displays {
    if ds == [] || ds[|ds| - 1].displayId <= d.displayId then ds + [d]
    else Insert(d, ds[..|ds| - 1]) + [ds[|ds| - 1]]
  }

  lemma {:induction false} InsertAdds(d: Display, ds: Displays)
    ensures multiset(Insert(d, ds)) == multiset(ds) + multiset{d}
  {
    if ds != [] && ds[|ds| - 1].displayId > d.displayId {
      InsertAdds(d, ds[..|ds| - 1]);
      assert ds == ds[..|ds| - 1] + [ds[|ds| - 1]];
    }
  }

  ghost predicate Below(ds: Displays, id: u64) { forall i :: 0 <= i < |ds| ==> ds[i].displayId <= id }

  lemma {:induction false} InsertBelow(d: Display, ds: Displays, id: u64)
    requires Below(ds, id) && d.displayId <= id
    ensures Below(Insert(d, ds), id)
  {
    if ds != [] && ds[|ds| - 1].displayId > d.displayId {
      InsertBelow(d, ds[..|ds| - 1], id);
    }
  }

  lemma {:induction false} InsertSorts(d: Display, ds: Displays)
    requires SortedById(ds)
    ensures SortedById(Insert(d, ds))
  {
    if ds != [] && ds[|ds| - 1].displayId > d.displayId {
      InsertSorts(d, ds[..|ds| - 1]);
      InsertBelow(d, ds[..|ds| - 1], ds[|ds| - 1].displayId);
    }
  }

  /** The displays in the order of their ids. */
  function SortById(ds: Displays): Displays {
    if ds == [] then [] else Insert(ds[|ds| - 1], SortById(ds[..|ds| - 1]))
  }

  lemma {:induction false} SortByIdSorts(ds: Displays)
    ensures SortedById(SortById(ds)) && multiset(SortById(ds)) == multiset(ds)
  {
    if ds != [] {
      SortByIdSorts(ds[..|ds| - 1]);
      InsertSorts(ds[|ds| - 1], SortById(ds[..|ds| - 1]));
      InsertAdds(ds[|ds| - 1], SortById(ds[..|ds| - 1]));
      hide Insert;
      assert ds == ds[..|ds| - 1] + [ds[|ds| - 1]];
    }
  }

  /** All the library's sort promises; which order equal ids get is left open. */
  method Sort(displays: Displays) returns (sorted: Displays)
    ensures SortedById(sorted) && multiset(sorted) == multiset(displays)
  {
    sorted := [];
    for k := 0 to |displays|
      invariant SortedById(sorted) && multiset(sorted) == multiset(displays[..k])
    {
      InsertSorts(displays[k], sorted);
      InsertAdds(displays[k], sorted);
      assert displays[..k + 1] == displays[..k] + [displays[k]];
      sorted := Insert(displays[k], sorted);
    }
    assert displays[..|displays|] == displays;
  }

  // ---------- replacing the topology ----------

  datatype State = State(generation: u64, displays: Displays)

  const INITIAL: State := State(1, [])

  function NextGeneration(generation: u64): u64 {
    if generation == LAST_GENERATION then 1 else (generation + 1) % 0x1_0000_0000_0000_0000
  }

  /** The effect of one request: acceptable displays are stored in the order of their ids. */
  ghost function Replace(s: State, displays: Displays): State {
    if !Acceptable(displays) || SortById(displays) == s.displays then s
    else State(NextGeneration(s.generation), SortById(displays))
  }

  /** Why a list is rejected. */
  ghost predicate Justifies(displays: Displays, result: UpdateResult) {
    match result
    case InvalidDisplay => exists d :: d in multiset(displays) && !IsValid(d)
    case DuplicateDisplayId => exists d, e :: multiset{d, e} <= multiset(displays) && d.displayId == e.displayId
    case DuplicatePort => exists d, e :: multiset{d, e} <= multiset(displays) && d.port == e.port
    case _ => false
  }

  lemma {:induction false} PairInBag(ds: Displays, i: nat, k: nat)
    requires i < k < |ds|
    ensures multiset{ds[i], ds[k]} <= multiset(ds)
  {
    SplitBag(ds, k);
    SplitBag(ds[..k], i);
  }

  /** Sorted acceptable displays are the topology of the request. */
  lemma {:induction false} SortedIsTopology(displays: Displays, sorted: Displays)
    requires SortedById(sorted) && multiset(sorted) == multiset(displays)
    ensures Acceptable(displays) <==> Acceptable(sorted)
    ensures Acceptable(displays) ==> IsTopology(sorted) && sorted == SortById(displays)
  {
    AcceptableIsOrderFree(displays, sorted);
    SortByIdSorts(displays);
    if Acceptable(sorted) {
      AcceptableIsAscending(sorted);
      hide Acceptable;
      SortingIsUnique(sorted, SortById(displays));
    }
  }

  lemma {:induction false} AcceptableIsAscending(ds: Displays)
    requires Acceptable(ds) && SortedById(ds)
    ensures Ascending(ds)
  {
    hide IsValid;
    assert forall i, j :: 0 <= i < j < |ds| ==> Compatible(ds[i], ds[j]);
  }

  /** The first display that cannot be stored with those before it decides why a list is rejected. */
  method Check(displays: Displays) returns (rejection: Option<UpdateResult>)
    ensures rejection.None? <==> Acceptable(displays)
    ensures rejection.Some? ==> Justifies(displays, rejection.value)
  {
    var displayIds: set<u64> := {};
    var ports: set<u8> := {};
    hide IsValid;
    for k := 0 to |displays|
      invariant Acceptable(displays[..k])
      invariant forall id :: id in displayIds <==> exists i :: 0 <= i < k && displays[i].displayId == id
      invariant forall port :: port in ports <==> exists i :: 0 <= i < k && displays[i].port == port
    {
      var display := displays[k];
      var valid := IsValidDisplay(display);
      if !valid {
        assert display in multiset(displays);
        return Some(InvalidDisplay);
      }
      if display.displayId in displayIds {
        var i :| 0 <= i < k && displays[i].displayId == display.displayId;
        PairInBag(displays, i, k);
        return Some(DuplicateDisplayId);
      }
      displayIds := displayIds + {display.displayId};
      if display.port in ports {
        var i :| 0 <= i < k && displays[i].port == display.port;
        PairInBag(displays, i, k);
        return Some(DuplicatePort);
      }
      ports := ports + {display.port};
    }
    assert displays[..|displays|] == displays;
    rejection := None;
  }

  class DisplayTopologyStateService {
    var generation: u64
    var displays: Displays

    ghost predicate Valid()
      reads this
    {
      1 <= generation <= LAST_GENERATION && IsTopology(displays)
    }

    ghost function Abs(): State
      reads this
    {
      State(generation, displays)
    }

    constructor ()
      ensures Valid() && Abs() == INITIAL
    {
      generation, displays := 1, [];
    }

    method ReplaceExternalDisplays(requested: Displays) returns (update: Update)
      requires Valid()
      modifies this
      ensures Valid() && Abs() == Replace(old(Abs()), requested) && update.generation == generation
      ensures update.result == Applied ==> Acceptable(requested) && displays == SortById(requested) != old(displays)
      ensures update.result == Unchanged ==> Acceptable(requested) && displays == SortById(requested) == old(displays)
      ensures !update.result.Applied? && !update.result.Unchanged? ==>
                Justifies(requested, update.result) && !Acceptable(requested)
    {
      var sorted := Sort(requested);
      SortedIsTopology(requested, sorted);
      var rejection := Check(sorted);
      hide IsValid;
      hide SortById;
      if rejection.Some? {
        return Update(rejection.value, generation);
      }
      if sorted == displays {
        return Update(Unchanged, generation);
      }
      displays := sorted;
      if generation == LAST_GENERATION {
        generation := 1;
      } else {
        generation := (generation + 1) % 0x1_0000_0000_0000_0000;
      }
      update := Update(Applied, generation);
    }
  }

  // ---------- every run ----------

  ghost function Run(requests: seq<Displays>): State {
    if requests == [] then INITIAL else Replace(Run(requests[..|requests| - 1]), requests[|requests| - 1])
  }

  /** How often the stored displays changed. */
  ghost function Changes(requests: seq<Displays>): nat {
    if requests == [] then 0
    else
      var front := requests[..|requests| - 1];
      Changes(front) + if Run(requests).displays != Run(front).displays then 1 else 0
  }

  lemma {:induction false} ReplaceKeepsTopology(s: State, request: Displays)
    requires IsTopology(s.displays)
    ensures IsTopology(Replace(s, request).displays)
  {
    SortByIdSorts(request);
    SortedIsTopology(request, SortById(request));
  }

  lemma {:induction false} GenerationsCount(n: nat)
    ensures NextGeneration(1 + n % LAST_GENERATION) == 1 + (n + 1) % LAST_GENERATION
  {
    assert n + 1 == n / LAST_GENERATION * LAST_GENERATION + (n % LAST_GENERATION + 1);
  }

  /** In every run the stored displays are a topology, and the generation counts their changes. */
  lemma {:induction false} RunKeepsTopology(requests: seq<Displays>)
    ensures IsTopology(Run(requests).displays)
    ensures Run(requests).generation == 1 + Changes(requests) % LAST_GENERATION
  {
    if requests != [] {
      var front, last := requests[..|requests| - 1], requests[|requests| - 1];
      RunKeepsTopology(front);
      ReplaceKeepsTopology(Run(front), last);
      GenerationsCount(Changes(front));
      hide IsTopology;
      hide Acceptable;
      hide SortById;
      hide NextGeneration;
    }
  }

  /** One request: rejected or repeated requests change nothing, every other one changes both the
      displays and the generation. */
  lemma {:induction false} GenerationChangesWithDisplays(requests: seq<Displays>, request: Displays)
    ensures var s, s' := Run(requests), Replace(Run(requests), request);
            && (s'.generation != s.generation <==> s'.displays != s.displays)
            && (Acceptable(request) <==> multiset(s'.displays) == multiset(request))
            && (!Acceptable(request) ==> s' == s)
  {
    RunKeepsTopology(requests);
    hide Run;
    hide Changes;
    var s := Run(requests);
    SortByIdSorts(request);
    SortedIsTopology(request, SortById(request));
    if !Acceptable(request) && multiset(s.displays) == multiset(request) {
      AcceptableIsOrderFree(s.displays, request);
    }
  }

  /** Sending the stored displays again, in any order, changes nothing. */
  lemma {:induction false} ResubmittingIsUnchanged(requests: seq<Displays>, request: Displays)
    requires multiset(request) == multiset(Run(requests).displays)
    ensures Acceptable(request) && SortById(request) == Run(requests).displays
    ensures Replace(Run(requests), request) == Run(requests)
  {
    RunKeepsTopology(requests);
    hide Run;
    hide Changes;
    var stored := Run(requests).displays;
    AcceptableIsOrderFree(request, stored);
    SortByIdSorts(request);
    SortingIsUnique(stored, SortById(request));
  }
}
