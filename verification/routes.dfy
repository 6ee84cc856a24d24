/** Routing tables as values: longest match over a list, and one slot per address. */
module Routes {
  import opened Bytes
  import opened Wrappers

  const HOST_SIZE: nat := 5
  const HOST_MAX: nat := 31
  const DEFAULT_ROUTE: nat := 32

  /** An interface and the address to send to instead of the destination. */
  datatype Route = Route(iface: nat, via: nat)

  datatype Entry = Entry(address: nat, mask: nat, route: Route)

  /** The size of the network a mask of so many bits leaves; one more than the host bits of the C code. */
  function NetSize(mask: nat): (n: nat)
    ensures n >= 1
  {
    if mask == 0 then 32 else if mask == 1 then 16 else if mask == 2 then 8
    else if mask == 3 then 4 else if mask == 4 then 2 else 1
  }

  /** The addresses agree once the host bits are cleared. */
  predicate Covers(e: Entry, dest: nat) {
    e.address / NetSize(e.mask) == dest / NetSize(e.mask)
  }

  /** The network bits of a mask, as the C code computes them in a byte. */
  function NetBits(mask: nat): bv8
    requires mask <= HOST_SIZE
  {
    !((1 << (HOST_SIZE - mask)) - 1)
  }

  function And(x: bv8, y: bv8): bv8 { x & y }

  lemma NetBitsAre()
    ensures NetBits(0) == 0xE0 && NetBits(1) == 0xF0 && NetBits(2) == 0xF8
    ensures NetBits(3) == 0xFC && NetBits(4) == 0xFE && NetBits(5) == 0xFF
  {
  }

  lemma ClearFive(x: bv8)
    ensures Value(And(x, 0xE0)) == Value(x) / 32 * 32
  {
  }

  lemma ClearFour(x: bv8)
    ensures Value(And(x, 0xF0)) == Value(x) / 16 * 16
  {
  }

  lemma ClearThree(x: bv8)
    ensures Value(And(x, 0xF8)) == Value(x) / 8 * 8
  {
  }

  lemma ClearTwo(x: bv8)
    ensures Value(And(x, 0xFC)) == Value(x) / 4 * 4
  {
  }

  lemma ClearOne(x: bv8)
    ensures Value(And(x, 0xFE)) == Value(x) / 2 * 2
  {
  }

  lemma ClearNone(x: bv8)
    ensures And(x, 0xFF) == x
  {
  }

  /** Clearing the host bits rounds an address down to a multiple of the network's size. */
  lemma NetBitsRoundDown(x: bv8, mask: nat)
    requires mask <= HOST_SIZE
    ensures Value(And(x, NetBits(mask))) == Value(x) / NetSize(mask) * NetSize(mask)
  {
    hide And, NetBits, Value;
    NetBitsAre();
    ClearFive(x);
    ClearFour(x);
    ClearThree(x);
    ClearTwo(x);
    ClearOne(x);
    ClearNone(x);
  }

  lemma SameMultiple(x: nat, y: nat, n: nat)
    requires n > 0
    ensures x / n * n == y / n * n <==> x / n == y / n
  {
  }

  /** An entry covers the addresses that agree with its own in the network bits. */
  lemma CoversIff(e: Entry, dest: nat)
    requires e.mask <= HOST_SIZE && e.address < 0x100 && dest < 0x100
    ensures Covers(e, dest) <==> Small(e.address) & NetBits(e.mask) == Small(dest) & NetBits(e.mask)
  {
    hide NetBits, NetSize, Value, Small;
    var a, b := Small(e.address), Small(dest);
    SmallRoundTrip(e.address);
    SmallRoundTrip(dest);
    NetBitsRoundDown(a, e.mask);
    NetBitsRoundDown(b, e.mask);
    SameMultiple(e.address, dest, NetSize(e.mask));
    if Value(And(a, NetBits(e.mask))) == Value(And(b, NetBits(e.mask))) {
      SameValue(And(a, NetBits(e.mask)), And(b, NetBits(e.mask)));
    }
  }

  function Pow2(n: nat): (p: nat)
    ensures p > 0
  {
    if n == 0 then 1 else 2 * Pow2(n - 1)
  }

  lemma NetSizeIsPower(mask: nat)
    requires mask <= HOST_SIZE
    ensures NetSize(mask) == Pow2(HOST_SIZE - mask)
  {
    assert Pow2(1) == 2 && Pow2(2) == 4 && Pow2(3) == 8 && Pow2(4) == 16 && Pow2(5) == 32;
  }

  lemma Round32(x: nat, y: nat)
    ensures (x - x % 32) % 32 == 0 && (x / 32 == y / 32 <==> x - x % 32 <= y < x - x % 32 + 32)
  {
  }

  lemma Round16(x: nat, y: nat)
    ensures (x - x % 16) % 16 == 0 && (x / 16 == y / 16 <==> x - x % 16 <= y < x - x % 16 + 16)
  {
  }

  lemma Round8(x: nat, y: nat)
    ensures (x - x % 8) % 8 == 0 && (x / 8 == y / 8 <==> x - x % 8 <= y < x - x % 8 + 8)
  {
  }

  lemma Round4(x: nat, y: nat)
    ensures (x - x % 4) % 4 == 0 && (x / 4 == y / 4 <==> x - x % 4 <= y < x - x % 4 + 4)
  {
  }

  lemma Round2(x: nat, y: nat)
    ensures (x - x % 2) % 2 == 0 && (x / 2 == y / 2 <==> x - x % 2 <= y < x - x % 2 + 2)
  {
  }

  /** These are 2^(5 - mask) addresses in a row, from a multiple of that number on. */
  lemma CoversRange(e: Entry, dest: nat)
    requires e.mask <= HOST_SIZE
    ensures var n := Pow2(HOST_SIZE - e.mask);
            var first := e.address - e.address % n;
            first % n == 0 && (Covers(e, dest) <==> first <= dest < first + n)
  {
    hide Pow2;
    NetSizeIsPower(e.mask);
    match e.mask
    case 0 => Round32(e.address, dest);
    case 1 => Round16(e.address, dest);
    case 2 => Round8(e.address, dest);
    case 3 => Round4(e.address, dest);
    case 4 => Round2(e.address, dest);
    case _ =>
  }

  predicate Is(e: Entry, address: nat, mask: nat) {
    e.address == address && e.mask == mask
  }

  /** csp_rtable_find from entry i on, with the best result so far: the index of the result, or the list's length. */
  function Scan(es: seq<Entry>, address: nat, mask: nat, exact: bool, i: nat, best: nat, bestMask: nat): (k: nat)
    requires i <= |es| && best <= |es|
    ensures k <= |es|
    decreases |es| - i
  {
    if i == |es| then best
    else if Is(es[i], address, mask) then i
    else if !exact && Covers(es[i], address) && es[i].mask >= bestMask
    then Scan(es, address, mask, exact, i + 1, i, es[i].mask)
    else Scan(es, address, mask, exact, i + 1, best, bestMask)
  }

  function Find(es: seq<Entry>, address: nat, mask: nat, exact: bool): (k: nat)
    ensures k <= |es|
  {
    Scan(es, address, mask, exact, 0, |es|, 0)
  }

  function Lookup(es: seq<Entry>, dest: nat): Option<Route> {
    var k := Find(es, dest, HOST_SIZE, false);
    if k < |es| then Some(es[k].route) else None
  }

  /** csp_rtable_set_internal with memory for a new entry to be had. */
  function Put(es: seq<Entry>, e: Entry): seq<Entry> {
    var k := Find(es, e.address, e.mask, true);
    if k < |es| then es[k := e] else es + [e]
  }

  // Longest match

  /** No address and mask twice, no mask longer than an address. */
  ghost predicate WellFormed(es: seq<Entry>) {
    && (forall i | 0 <= i < |es| :: es[i].mask <= HOST_SIZE)
    && (forall i, j | 0 <= i < j < |es| :: !Is(es[i], es[j].address, es[j].mask))
  }

  /** Entry k covers the destination; no other covering entry has a longer mask, and no later one an equal one. */
  ghost predicate IsLongest(es: seq<Entry>, dest: nat, k: nat) {
    && k < |es| && Covers(es[k], dest)
    && (forall j | 0 <= j < |es| && Covers(es[j], dest) :: es[j].mask <= es[k].mask)
    && (forall j | k < j < |es| && Covers(es[j], dest) :: es[j].mask < es[k].mask)
  }

  lemma HostCovers(e: Entry, dest: nat)
    requires e.mask == HOST_SIZE
    ensures Covers(e, dest) <==> Is(e, dest, HOST_SIZE)
  {
  }

  lemma IsCovers(e: Entry, dest: nat)
    requires Is(e, dest, HOST_SIZE)
    ensures Covers(e, dest)
  {
  }

  lemma OnlyOne(es: seq<Entry>, i: nat, j: nat, address: nat, mask: nat)
    requires WellFormed(es) && i < |es| && j < |es| && i != j && Is(es[i], address, mask)
    ensures !Is(es[j], address, mask)
  {
    assert i < j ==> !Is(es[i], es[j].address, es[j].mask);
    assert j < i ==> !Is(es[j], es[i].address, es[i].mask);
  }

  lemma IsOne(es: seq<Entry>, i: nat, j: nat, address: nat, mask: nat)
    requires WellFormed(es) && i < |es| && j <= |es| && Is(es[i], address, mask)
    requires j < |es| ==> Is(es[j], address, mask)
    requires forall l | 0 <= l < j :: !Is(es[l], address, mask)
    ensures i == j
  {
    if i > j {
      OnlyOne(es, i, j, address, mask);
    }
  }

  /** The best result among the first i entries. */
  ghost predicate BestSoFar(es: seq<Entry>, dest: nat, i: nat, best: nat, bestMask: nat)
    requires i <= |es|
  {
    && (forall j | 0 <= j < i :: !Is(es[j], dest, HOST_SIZE))
    && if best == |es| then bestMask == 0 && forall j | 0 <= j < i :: !Covers(es[j], dest)
       else
         && best < i && Covers(es[best], dest) && bestMask == es[best].mask
         && (forall j | 0 <= j < i && Covers(es[j], dest) :: es[j].mask <= bestMask)
         && (forall j | best < j < i && Covers(es[j], dest) :: es[j].mask < bestMask)
  }

  /** A host route is the longest match. */
  lemma HostIsLongest(es: seq<Entry>, dest: nat, i: nat)
    requires WellFormed(es) && i < |es| && Is(es[i], dest, HOST_SIZE)
    ensures IsLongest(es, dest, i)
  {
    hide Covers;
    IsCovers(es[i], dest);
    forall j | i < j < |es| && Covers(es[j], dest) ensures es[j].mask < HOST_SIZE {
      OnlyOne(es, i, j, dest, HOST_SIZE);
      if es[j].mask == HOST_SIZE {
        HostCovers(es[j], dest);
      }
    }
  }

  lemma {:induction false} ScanFindsLongest(es: seq<Entry>, dest: nat, i: nat, best: nat, bestMask: nat)
    requires WellFormed(es) && i <= |es| && best <= |es| && BestSoFar(es, dest, i, best, bestMask)
    ensures var k := Scan(es, dest, HOST_SIZE, false, i, best, bestMask);
            if k == |es| then forall j | 0 <= j < |es| :: !Covers(es[j], dest) else IsLongest(es, dest, k)
    decreases |es| - i
  {
    hide Covers, WellFormed;
    if i < |es| {
      if Is(es[i], dest, HOST_SIZE) {
        HostIsLongest(es, dest, i);
      } else if Covers(es[i], dest) && es[i].mask >= bestMask {
        ScanFindsLongest(es, dest, i + 1, i, es[i].mask);
      } else {
        ScanFindsLongest(es, dest, i + 1, best, bestMask);
      }
    }
  }

  /** A look-up gives the longest match, the later entry among equally long ones, and nothing only if nothing covers. */
  lemma LookupIsLongestMatch(es: seq<Entry>, dest: nat, k: nat)
    requires WellFormed(es)
    ensures IsLongest(es, dest, k) ==> Lookup(es, dest) == Some(es[k].route)
    ensures Lookup(es, dest) == None <==> forall j | 0 <= j < |es| :: !Covers(es[j], dest)
  {
    hide Covers, Scan;
    ScanFindsLongest(es, dest, 0, |es|, 0);
  }

  lemma {:induction false} ScanExact(es: seq<Entry>, address: nat, mask: nat, i: nat)
    requires i <= |es|
    ensures var k := Scan(es, address, mask, true, i, |es|, 0);
            && (k < |es| ==> Is(es[k], address, mask))
            && (forall j | i <= j < k :: !Is(es[j], address, mask))
    decreases |es| - i
  {
    hide Covers;
    if i < |es| && !Is(es[i], address, mask) {
      ScanExact(es, address, mask, i + 1);
    }
  }

  lemma PutKeepsWellFormed(es: seq<Entry>, e: Entry)
    requires WellFormed(es) && e.mask <= HOST_SIZE
    ensures WellFormed(Put(es, e)) && e in Put(es, e)
    ensures forall x | x in es && !Is(x, e.address, e.mask) :: x in Put(es, e)
    ensures forall x | x in Put(es, e) :: x == e || x in es
  {
    hide Scan;
    ScanExact(es, e.address, e.mask, 0);
    var k := Find(es, e.address, e.mask, true);
    var put := Put(es, e);
    assert put[if k < |es| then k else |es|] == e;
    forall x | x in es && !Is(x, e.address, e.mask) ensures x in put {
      var j :| 0 <= j < |es| && es[j] == x;
      assert put[j] == x;
    }
  }

  // csp_rtable_set

  /** A call of csp_rtable_set; no interface is the null pointer, and memory may run out. */
  datatype SetCall = SetCall(address: nat, mask: nat, iface: Option<nat>, via: nat, memory: bool)

  /** The entry the call asks for: the old default address stands for 0/0, and bad calls for none. */
  function Asked(call: SetCall): (e: Option<Entry>)
    ensures e.Some? ==> e.value.mask <= HOST_SIZE
  {
    var address := if call.address == DEFAULT_ROUTE then 0 else call.address;
    var mask := if call.address == DEFAULT_ROUTE then 0 else call.mask;
    if (address > HOST_MAX && address != 255) || call.iface.None? || mask > HOST_SIZE then None
    else Some(Entry(address, mask, Route(call.iface.value, call.via)))
  }

  function Set(es: seq<Entry>, call: SetCall): seq<Entry> {
    var e := Asked(call);
    if e.None? then es
    else if !call.memory && Find(es, e.value.address, e.value.mask, true) == |es| then es
    else Put(es, e.value)
  }

  function SetAll(calls: seq<SetCall>): seq<Entry> {
    if calls == [] then [] else Set(SetAll(calls[..|calls| - 1]), calls[|calls| - 1])
  }

  lemma {:induction false} SetAllWellFormed(calls: seq<SetCall>)
    ensures WellFormed(SetAll(calls))
  {
    hide Asked, Put, Find;
    if calls != [] {
      var before, call := calls[..|calls| - 1], calls[|calls| - 1];
      SetAllWellFormed(before);
      if Asked(call).Some? {
        PutKeepsWellFormed(SetAll(before), Asked(call).value);
      }
    }
  }

  /**
   * After any calls of csp_rtable_set, a route is found exactly when some entry covers, and it is the longest
   * match's.
   */
  lemma LongestMatchAfterSets(calls: seq<SetCall>, dest: nat)
    ensures var es := SetAll(calls);
            if forall j | 0 <= j < |es| :: !Covers(es[j], dest) then Lookup(es, dest) == None
            else exists k: nat :: IsLongest(es, dest, k) && Lookup(es, dest) == Some(es[k].route)
  {
    hide Covers, Scan, SetAll;
    var es := SetAll(calls);
    SetAllWellFormed(calls);
    ScanFindsLongest(es, dest, 0, |es|, 0);
  }

  /** The last successful call for an address and mask is the one that counts. */
  lemma LastSetCounts(calls: seq<SetCall>, call: SetCall)
    requires call.memory && Asked(call).Some?
    ensures Asked(call).value in SetAll(calls + [call])
    ensures forall x | x in SetAll(calls) && !Is(x, Asked(call).value.address, Asked(call).value.mask) ::
              x in SetAll(calls + [call])
  {
    hide Asked, Put, Find;
    assert (calls + [call])[..|calls|] == calls;
    SetAllWellFormed(calls);
    PutKeepsWellFormed(SetAll(calls), Asked(call).value);
  }

  /** A call without memory for a new entry changes nothing; any other that is not refused leaves it and the rest. */
  lemma SetChangesOnly(es: seq<Entry>, call: SetCall, x: Entry)
    requires WellFormed(es) && Asked(call).Some?
    ensures var e := Asked(call).value;
            x in Set(es, call) <==>
              if !call.memory && (forall y | y in es :: !Is(y, e.address, e.mask)) then x in es
              else x == e || (x in es && !Is(x, e.address, e.mask))
  {
    hide Asked, Scan;
    var e := Asked(call).value;
    ScanExact(es, e.address, e.mask, 0);
    PutKeepsWellFormed(es, e);
    var k := Find(es, e.address, e.mask, true);
    assert k < |es| ==> es[k] in es;
    var put := Put(es, e);
    if x in put && Is(x, e.address, e.mask) { SameEntry(put, x, e); }
  }

  lemma SameEntry(es: seq<Entry>, x: Entry, y: Entry)
    requires WellFormed(es) && x in es && y in es && Is(x, y.address, y.mask)
    ensures x == y
  {
  }

  // One slot per address

  /** The static table: a slot per address, and the default route's. */
  type Slots = s: seq<Option<Route>> | |s| == DEFAULT_ROUTE + 1 witness seq(33, i => None)

  function LookupSlot(slots: Slots, dest: nat): Option<Route>
    requires dest <= DEFAULT_ROUTE
  {
    if slots[dest].Some? then slots[dest] else slots[DEFAULT_ROUTE]
  }

  /** What csp_rtable_set writes into the static table, if the call is not refused: masks are none or all bits. */
  function Written(call: SetCall): (e: Option<Entry>)
    ensures e.Some? ==> e == Asked(call)
  {
    var e := Asked(call);
    if e.Some? && (e.value.mask == 0 || e.value.mask == HOST_SIZE) then e else None
  }

  /** The index it writes to. */
  function SlotOf(e: Entry): nat {
    if e.mask == 0 then DEFAULT_ROUTE else e.address
  }

  /** The call does not ask for a host route to address 255. */
  predicate HasPlace(call: SetCall) {
    !(call.iface.Some? && call.address == 255 && call.mask == HOST_SIZE)
  }

  /** The write stays inside the table exactly when the call does not ask for that. */
  lemma WriteStaysInsideIff(call: SetCall)
    ensures (Written(call).Some? ==> SlotOf(Written(call).value) <= DEFAULT_ROUTE) <==> HasPlace(call)
  {
  }

  /** csp_rtable_set with the static table. */
  function SetSlot(slots: Slots, call: SetCall): Slots
    requires HasPlace(call)
  {
    WriteStaysInsideIff(call);
    var e := Written(call);
    if e.None? then slots else slots[SlotOf(e.value) := Some(e.value.route)]
  }

  function SetAllSlots(calls: seq<SetCall>): Slots
    requires forall k | 0 <= k < |calls| :: HasPlace(calls[k])
  {
    if calls == [] then seq(33, i => None) else SetSlot(SetAllSlots(calls[..|calls| - 1]), calls[|calls| - 1])
  }

  // When the two tables agree

  /** A call both tables carry out, or both refuse. */
  predicate Common(call: SetCall) {
    call.memory && HasPlace(call) && Written(call) == Asked(call)
  }

  /** An entry that can match an address of the network as a default. */
  predicate IsDefault(e: Entry) {
    e.mask == 0 && e.address <= HOST_MAX
  }

  /** The route of the last default entry of a list. */
  function DefaultRoute(es: seq<Entry>): Option<Route> {
    if es == [] then None
    else if IsDefault(es[|es| - 1]) then Some(es[|es| - 1].route)
    else DefaultRoute(es[..|es| - 1])
  }

  ghost predicate IsLastDefault(es: seq<Entry>, k: nat) {
    k < |es| && IsDefault(es[k]) && forall j | k < j < |es| :: !IsDefault(es[j])
  }

  lemma {:induction false} DefaultRouteIs(es: seq<Entry>, k: nat)
    requires IsLastDefault(es, k)
    ensures DefaultRoute(es) == Some(es[k].route)
  {
    hide IsDefault;
    var init := es[..|es| - 1];
    if k < |init| {
      assert IsLastDefault(init, k);
      DefaultRouteIs(init, k);
    }
  }

  lemma {:induction false} NoDefaultRoute(es: seq<Entry>)
    requires forall j | 0 <= j < |es| :: !IsDefault(es[j])
    ensures DefaultRoute(es) == None
  {
    hide IsDefault;
    if es != [] {
      NoDefaultRoute(es[..|es| - 1]);
    }
  }

  lemma {:induction false} FindLastDefault(es: seq<Entry>) returns (k: Option<nat>)
    ensures k.Some? ==> IsLastDefault(es, k.value)
    ensures k.None? ==> forall j | 0 <= j < |es| :: !IsDefault(es[j])
  {
    hide IsDefault;
    if es == [] {
      k := None;
    } else if IsDefault(es[|es| - 1]) {
      k := Some(|es| - 1);
    } else {
      var init := es[..|es| - 1];
      k := FindLastDefault(init);
      assert forall j | 0 <= j < |init| :: init[j] == es[j];
    }
  }

  predicate PlainEntry(e: Entry) {
    (e.mask == HOST_SIZE && e.address <= HOST_MAX) || e.mask == 0
  }

  ghost predicate HasHost(es: seq<Entry>, a: nat) {
    exists k | 0 <= k < |es| :: Is(es[k], a, HOST_SIZE)
  }

  /** The list and the slots hold the same host routes. */
  ghost predicate SameHosts(es: seq<Entry>, slots: Slots) {
    && WellFormed(es)
    && (forall e | e in es :: PlainEntry(e) && (e.mask == HOST_SIZE ==> slots[e.address] == Some(e.route)))
    && (forall a | 0 <= a <= HOST_MAX && slots[a].Some? :: HasHost(es, a))
  }

  /** A list of host routes and masks of no bits finds the host route, else its last default. */
  lemma PlainLookup(es: seq<Entry>, slots: Slots, dest: nat)
    requires SameHosts(es, slots) && dest <= HOST_MAX
    ensures Lookup(es, dest) == if slots[dest].Some? then slots[dest] else DefaultRoute(es)
  {
    hide Lookup, IsDefault, DefaultRoute;
    if slots[dest].Some? {
      var k :| 0 <= k < |es| && Is(es[k], dest, HOST_SIZE);
      assert es[k] in es;
      HostIsLongest(es, dest, k);
      LookupIsLongestMatch(es, dest, k);
    } else {
      forall j | 0 <= j < |es| ensures Covers(es[j], dest) <==> IsDefault(es[j]) {
        assert es[j] in es;
        PlainCovers(es[j], dest);
      }
      var k := FindLastDefault(es);
      if k.Some? {
        DefaultRouteIs(es, k.value);
        assert IsLongest(es, dest, k.value) by { DefaultIsLongest(es, dest, k.value); }
        LookupIsLongestMatch(es, dest, k.value);
      } else {
        NoDefaultRoute(es);
        LookupIsLongestMatch(es, dest, 0);
      }
    }
  }

  lemma PlainCovers(e: Entry, dest: nat)
    requires PlainEntry(e) && dest <= HOST_MAX
    ensures Covers(e, dest) <==> IsDefault(e) || Is(e, dest, HOST_SIZE)
  {
  }

  lemma DefaultIsLongest(es: seq<Entry>, dest: nat, k: nat)
    requires IsLastDefault(es, k) && forall j | 0 <= j < |es| :: Covers(es[j], dest) <==> IsDefault(es[j])
    ensures IsLongest(es, dest, k)
  {
    hide Covers;
  }

  /** The tables route every destination alike. */
  ghost predicate Agree(es: seq<Entry>, slots: Slots) {
    forall dest | 0 <= dest <= HOST_MAX :: Lookup(es, dest) == LookupSlot(slots, dest)
  }

  ghost predicate AllHosts(slots: Slots) {
    forall a | 0 <= a <= HOST_MAX :: slots[a].Some?
  }

  lemma AgreeIff(es: seq<Entry>, slots: Slots)
    requires SameHosts(es, slots)
    ensures Agree(es, slots) <==> AllHosts(slots) || DefaultRoute(es) == slots[DEFAULT_ROUTE]
  {
    hide Lookup, DefaultRoute, SameHosts;
    forall dest | 0 <= dest <= HOST_MAX
      ensures Lookup(es, dest) == if slots[dest].Some? then slots[dest] else DefaultRoute(es)
    {
      PlainLookup(es, slots, dest);
    }
    if Agree(es, slots) && !AllHosts(slots) {
      var a :| 0 <= a <= HOST_MAX && slots[a].None?;
      assert Lookup(es, a) == LookupSlot(slots, a);
    }
  }

  lemma SetKeepsSameHosts(es: seq<Entry>, slots: Slots, call: SetCall)
    requires SameHosts(es, slots) && Common(call)
    ensures SameHosts(Set(es, call), SetSlot(slots, call))
  {
    hide Put, Find, HasHost;
    var e := Asked(call);
    if e.Some? {
      var put, slots' := Put(es, e.value), SetSlot(slots, call);
      PutKeepsWellFormed(es, e.value);
      forall x | x in put
        ensures PlainEntry(x) && (x.mask == HOST_SIZE ==> slots'[x.address] == Some(x.route))
      {
        if x != e.value {
          PutReplaces(es, e.value, x);
        }
      }
      forall a | 0 <= a <= HOST_MAX && slots'[a].Some? ensures HasHost(put, a) {
        if a == SlotOf(e.value) {
          HostFound(put, e.value);
        } else {
          var x := HostOf(es, a);
          HostFound(put, x);
        }
      }
    }
  }

  lemma PutReplaces(es: seq<Entry>, e: Entry, x: Entry)
    requires WellFormed(es) && e.mask <= HOST_SIZE && x in Put(es, e) && x != e
    ensures !Is(x, e.address, e.mask)
  {
    hide Scan;
    PutKeepsWellFormed(es, e);
    var put := Put(es, e);
    var i :| 0 <= i < |put| && put[i] == e;
    var j :| 0 <= j < |put| && put[j] == x;
    OnlyOne(put, i, j, e.address, e.mask);
  }

  lemma HostFound(es: seq<Entry>, e: Entry)
    requires e in es && e.mask == HOST_SIZE
    ensures HasHost(es, e.address)
  {
    var k :| 0 <= k < |es| && es[k] == e;
    assert Is(es[k], e.address, HOST_SIZE);
  }

  lemma HostOf(es: seq<Entry>, a: nat) returns (e: Entry)
    requires HasHost(es, a)
    ensures e in es && Is(e, a, HOST_SIZE)
  {
    var k :| 0 <= k < |es| && Is(es[k], a, HOST_SIZE);
    e := es[k];
  }

  /** The route of the latest default that was set, by whatever address. */
  function LatestDefault(calls: seq<SetCall>): Option<Route> {
    if calls == [] then None
    else
      var e := Written(calls[|calls| - 1]);
      if e.Some? && e.value.mask == 0 then Some(e.value.route) else LatestDefault(calls[..|calls| - 1])
  }

  /** Some call set a host route for the address. */
  ghost predicate HostSet(calls: seq<SetCall>, a: nat) {
    exists k | 0 <= k < |calls| :: Written(calls[k]).Some? && Is(Written(calls[k]).value, a, HOST_SIZE)
  }

  lemma {:induction false} SetAllSameHosts(calls: seq<SetCall>)
    requires forall k | 0 <= k < |calls| :: HasPlace(calls[k]) && Common(calls[k])
    ensures SameHosts(SetAll(calls), SetAllSlots(calls))
    ensures SetAllSlots(calls)[DEFAULT_ROUTE] == LatestDefault(calls)
    ensures forall a | 0 <= a <= HOST_MAX :: SetAllSlots(calls)[a].Some? <==> HostSet(calls, a)
  {
    hide Set, SameHosts;
    if calls != [] {
      var before, call := calls[..|calls| - 1], calls[|calls| - 1];
      SetAllSameHosts(before);
      SetKeepsSameHosts(SetAll(before), SetAllSlots(before), call);
      forall a | 0 <= a <= HOST_MAX ensures SetAllSlots(calls)[a].Some? <==> HostSet(calls, a) {
        HostSetGrows(calls, a);
      }
    } else {
      NothingSame();
    }
  }

  lemma NothingSame()
    ensures SameHosts([], seq(33, i => None))
  {
  }

  lemma HostSetGrows(calls: seq<SetCall>, a: nat)
    requires |calls| > 0
    ensures var before, e := calls[..|calls| - 1], Written(calls[|calls| - 1]);
            HostSet(calls, a) <==> HostSet(before, a) || (e.Some? && Is(e.value, a, HOST_SIZE))
  {
    hide Written, Is;
    var before := calls[..|calls| - 1];
    assert forall k | 0 <= k < |before| :: before[k] == calls[k];
  }

  /**
   Over all calls that both tables carry out or refuse, they route every destination alike exactly when every address
   has got a host route, or the last default of the list has the route of the latest default that was set.
   */
  lemma TablesAgreeIff(calls: seq<SetCall>)
    requires forall k | 0 <= k < |calls| :: HasPlace(calls[k]) && Common(calls[k])
    ensures Agree(SetAll(calls), SetAllSlots(calls)) <==>
            || (forall a | 0 <= a <= HOST_MAX :: HostSet(calls, a))
            || DefaultRoute(SetAll(calls)) == LatestDefault(calls)
  {
    hide SetAll, SetAllSlots, DefaultRoute, LatestDefault, HostSet, SameHosts, Agree;
    SetAllSameHosts(calls);
    AgreeIff(SetAll(calls), SetAllSlots(calls));
  }

  /** A default for this address would be the last of the list: the address is new to it, or has its last default. */
  ghost predicate ComesLast(es: seq<Entry>, address: nat) {
    && address <= HOST_MAX
    && forall i, j | 0 <= i < j < |es| && Is(es[i], address, 0) :: !IsDefault(es[j])
  }

  lemma DefaultAfterPut(es: seq<Entry>, e: Entry)
    requires WellFormed(es) && e.mask == 0
    ensures DefaultRoute(Put(es, e)) == if ComesLast(es, e.address) then Some(e.route) else DefaultRoute(es)
  {
    hide Scan, DefaultRoute;
    ScanExact(es, e.address, e.mask, 0);
    var k := Find(es, e.address, e.mask, true);
    var put := Put(es, e);
    if ComesLast(es, e.address) {
      assert IsLastDefault(put, k);
      DefaultRouteIs(put, k);
    } else {
      SameDefault(es, put, k, e);
    }
  }

  lemma SameDefault(es: seq<Entry>, put: seq<Entry>, k: nat, e: Entry)
    requires WellFormed(es) && k <= |es| && e.mask == 0 && !ComesLast(es, e.address)
    requires k < |es| ==> Is(es[k], e.address, 0)
    requires forall j | 0 <= j < k :: !Is(es[j], e.address, 0)
    requires put == if k < |es| then es[k := e] else es + [e]
    ensures DefaultRoute(put) == DefaultRoute(es)
  {
    hide DefaultRoute;
    var l := FindLastDefault(es);
    if l.Some? {
      if e.address <= HOST_MAX {
        var i, j :| 0 <= i < j < |es| && Is(es[i], e.address, 0) && IsDefault(es[j]);
        IsOne(es, i, k, e.address, 0);
        assert l.value >= j;
      }
      assert put[l.value].route == es[l.value].route && IsLastDefault(put, l.value);
      DefaultRouteIs(es, l.value);
      DefaultRouteIs(put, l.value);
    } else {
      NoDefaultRoute(es);
      NoDefaultRoute(put);
    }
  }

  /**
   Step by step, from tables with the same host routes: after a call that sets a default, the tables agree exactly
   when every address has a host route, or the list's last default has that route already, or becomes this one.
   */
  lemma DefaultCallAgreesIff(es: seq<Entry>, slots: Slots, call: SetCall)
    requires SameHosts(es, slots) && Common(call) && Asked(call).Some? && Asked(call).value.mask == 0
    ensures var e := Asked(call).value;
            Agree(Set(es, call), SetSlot(slots, call)) <==>
              AllHosts(slots) || DefaultRoute(es) == Some(e.route) || ComesLast(es, e.address)
  {
    hide Agree, SameHosts, DefaultRoute, Put;
    var e := Asked(call).value;
    SetKeepsSameHosts(es, slots, call);
    AgreeIff(Set(es, call), SetSlot(slots, call));
    SameHostsWellFormed(es, slots);
    DefaultAfterPut(es, e);
    var slots' := SetSlot(slots, call);
    assert slots'[DEFAULT_ROUTE] == Some(e.route);
    assert forall a | 0 <= a <= HOST_MAX :: slots'[a] == slots[a];
    assert Set(es, call) == Put(es, e);
  }

  lemma SameHostsWellFormed(es: seq<Entry>, slots: Slots)
    requires SameHosts(es, slots)
    ensures WellFormed(es)
  {
  }

  /** While all defaults are set for one address, the tables always agree. */
  lemma {:induction false} TablesAgree(calls: seq<SetCall>, address: nat)
    requires forall k | 0 <= k < |calls| :: HasPlace(calls[k]) && Common(calls[k])
    requires address <= HOST_MAX
    requires forall k | 0 <= k < |calls| && Written(calls[k]).Some? && Written(calls[k]).value.mask == 0 ::
               Written(calls[k]).value.address == address
    ensures Agree(SetAll(calls), SetAllSlots(calls))
  {
    hide Agree, Written, Common;
    OneDefault(calls, address);
    TablesAgreeIff(calls);
  }

  lemma {:induction false} OneDefault(calls: seq<SetCall>, address: nat)
    requires forall k | 0 <= k < |calls| :: HasPlace(calls[k]) && Common(calls[k])
    requires address <= HOST_MAX
    requires forall k | 0 <= k < |calls| && Written(calls[k]).Some? && Written(calls[k]).value.mask == 0 ::
               Written(calls[k]).value.address == address
    ensures DefaultRoute(SetAll(calls)) == LatestDefault(calls)
    ensures forall e | e in SetAll(calls) && IsDefault(e) :: e.address == address
  {
    hide Put, DefaultRoute, Find, Asked;
    if calls != [] {
      var before, call := calls[..|calls| - 1], calls[|calls| - 1];
      OneDefault(before, address);
      SetAllWellFormed(before);
      var e := Written(call);
      if e.Some? {
        PutKeepsWellFormed(SetAll(before), e.value);
        if e.value.mask == 0 {
          ComesLastAlone(SetAll(before), address);
          DefaultAfterPut(SetAll(before), e.value);
        } else {
          HostPutKeepsDefault(SetAll(before), e.value);
        }
      }
    } else {
      NoDefaultRoute([]);
    }
  }

  lemma ComesLastAlone(es: seq<Entry>, address: nat)
    requires WellFormed(es) && address <= HOST_MAX
    requires forall e | e in es && IsDefault(e) :: e.address == address
    ensures ComesLast(es, address)
  {
    forall i, j | 0 <= i < j < |es| && Is(es[i], address, 0) ensures !IsDefault(es[j]) {
      OnlyOne(es, i, j, address, 0);
      assert es[j] in es;
    }
  }

  lemma HostPutKeepsDefault(es: seq<Entry>, e: Entry)
    requires WellFormed(es) && e.mask == HOST_SIZE
    ensures DefaultRoute(Put(es, e)) == DefaultRoute(es)
  {
    hide Scan, DefaultRoute;
    ScanExact(es, e.address, e.mask, 0);
    var k, put := Find(es, e.address, e.mask, true), Put(es, e);
    var l := FindLastDefault(es);
    if l.Some? {
      assert IsLastDefault(put, l.value);
      DefaultRouteIs(es, l.value);
      DefaultRouteIs(put, l.value);
    } else {
      NoDefaultRoute(es);
      NoDefaultRoute(put);
    }
  }

  /** Two default addresses are enough for them to disagree: the list keeps both entries, the slots the latest route. */
  lemma TablesDisagree()
    ensures var a, b := SetCall(5, 0, Some(1), 255, true), SetCall(0, 0, Some(2), 255, true);
            && Lookup(SetAll([a, b, a]), 7) == Some(Route(2, 255))
            && LookupSlot(SetAllSlots([a, b, a]), 7) == Some(Route(1, 255))
  {
    hide Find, Lookup;
    var a, b := SetCall(5, 0, Some(1), 255, true), SetCall(0, 0, Some(2), 255, true);
    var ea, eb := Entry(5, 0, Route(1, 255)), Entry(0, 0, Route(2, 255));
    assert [a, b, a][..2] == [a, b] && [a, b][..1] == [a] && [a][..0] == [];
    FindAmongTwo(ea, eb);
    assert SetAll([a]) == Set([], a) == [ea];
    assert SetAll([a, b]) == Set([ea], b) == [ea, eb];
    assert SetAll([a, b, a]) == Set([ea, eb], a) == [ea, eb];
    assert SetAllSlots([a, b]) == SetSlot(SetAllSlots([a]), b);
    assert SetAllSlots([a, b, a]) == SetSlot(SetAllSlots([a, b]), a);
  }

  lemma FindAmongTwo(a: Entry, b: Entry)
    requires a.mask == b.mask == 0 && a.address == 5 && b.address == 0
    ensures Find([], 5, 0, true) == 0 && Find([a], 0, 0, true) == 1 && Find([a, b], 5, 0, true) == 0
    ensures Lookup([a, b], 7) == Some(b.route)
  {
    ScanExact([a], 0, 0, 0);
    var es := [a, b];
    assert Scan(es, 7, HOST_SIZE, false, 1, 0, 0) == Scan(es, 7, HOST_SIZE, false, 2, 1, 0);
  }
}
