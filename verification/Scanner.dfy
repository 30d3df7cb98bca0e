/** The BLE scanner: a capped device table and an on-screen list kept in step
    with it by single-row edits. */
module Scanner {
  const MAX_RESULTS: nat := 32
  const MAX_DEVICES: nat := 64
  const STALE_AFTER: nat := 2
  const COUNT_MAX: nat := 0xFFFF_FFFF
  const MISSED_MAX: nat := 255

  type Addr = seq<bv8>

  datatype ScanResult = ScanResult(addr: Addr, addrType: nat, rssi: int, name: string)

  datatype Device = Device(addr: Addr, addrType: nat, rssi: int, name: string, count: nat, missed: nat)

  // --- The device table ------------------------------------------------------------

  function DeviceAddr(d: Device): Addr { d.addr }

  /** Position of the first element with an address, or the length. */
  function Find<T>(s: seq<T>, key: T -> Addr, addr: Addr): (i: nat)
    ensures i <= |s|
    ensures i < |s| ==> key(s[i]) == addr
    ensures forall k :: 0 <= k < i ==> key(s[k]) != addr
  {
    if s == [] || key(s[0]) == addr then 0 else 1 + Find(s[1..], key, addr)
  }

  function Seen(d: Device, r: ScanResult): Device {
    Device(d.addr, r.addrType, r.rssi, if r.name != "" then r.name else d.name,
           if d.count < COUNT_MAX then d.count + 1 else d.count, 0)
  }

  function NewDevice(r: ScanResult): Device {
    Device(r.addr, r.addrType, r.rssi, r.name, 1, 0)
  }

  /** More stale: missed more often, or as often and weaker. */
  predicate NoStaler(a: Device, b: Device) {
    a.missed < b.missed || (a.missed == b.missed && a.rssi >= b.rssi)
  }

  /** Index of the stalest device, the last one among equals. */
  function Stalest(devices: seq<Device>): (w: nat)
    requires devices != []
    ensures w < |devices|
    ensures forall k :: 0 <= k < |devices| ==> NoStaler(devices[k], devices[w])
    ensures forall k :: w < k < |devices| ==> !NoStaler(devices[w], devices[k])
  {
    if |devices| == 1 then 0
    else
      var n := |devices| - 1;
      var w := Stalest(devices[..n]);
      assert forall k :: 0 <= k < n ==> devices[..n][k] == devices[k];
      if NoStaler(devices[w], devices[n]) then n else w
  }

  function RemoveAt<T>(s: seq<T>, i: nat): seq<T>
    requires i < |s|
  {
    s[..i] + s[i + 1..]
  }

  function Evicted(devices: seq<Device>): seq<Device> {
    if devices == [] then devices
    else
      var w := Stalest(devices);
      if devices[w].missed > 0 then RemoveAt(devices, w) else devices
  }

  /** The table after one scan result. */
  function Folded(devices: seq<Device>, r: ScanResult): seq<Device> {
    var i := Find(devices, DeviceAddr, r.addr);
    if i < |devices| then devices[i := Seen(devices[i], r)]
    else
      var room := if |devices| >= MAX_DEVICES then Evicted(devices) else devices;
      if |room| >= MAX_DEVICES then room else room + [NewDevice(r)]
  }

  function FoldedAll(devices: seq<Device>, results: seq<ScanResult>): seq<Device> {
    if results == [] then devices
    else Folded(FoldedAll(devices, results[..|results| - 1]), results[|results| - 1])
  }

  ghost function Addrs(results: seq<ScanResult>): set<Addr> { set r | r in results :: r.addr }

  function Aged(d: Device, results: seq<ScanResult>): Device {
    if exists k :: 0 <= k < |results| && results[k].addr == d.addr then d
    else d.(missed := if d.missed < MISSED_MAX then d.missed + 1 else d.missed)
  }

  function AgedAll(devices: seq<Device>, results: seq<ScanResult>): seq<Device> {
    seq(|devices|, i requires 0 <= i < |devices| => Aged(devices[i], results))
  }

  /** One scan round. */
  function Merged(devices: seq<Device>, results: seq<ScanResult>): seq<Device> {
    AgedAll(FoldedAll(devices, results), results)
  }

  // --- What every round keeps -----------------------------------------------------------

  ghost predicate UniqueAddrs(devices: seq<Device>) {
    forall i, j :: 0 <= i < j < |devices| ==> devices[i].addr != devices[j].addr
  }

  /** The addresses of the devices that are not missed. */
  ghost function Present(devices: seq<Device>): set<Addr> {
    set i | 0 <= i < |devices| && devices[i].missed == 0 :: devices[i].addr
  }

  ghost predicate TableInv(devices: seq<Device>) {
    UniqueAddrs(devices) && |devices| <= MAX_DEVICES
  }

  lemma {:induction false} PresentSize(devices: seq<Device>)
    requires UniqueAddrs(devices) && forall i :: 0 <= i < |devices| ==> devices[i].missed == 0
    ensures |Present(devices)| == |devices|
  {
    if devices != [] {
      var n := |devices| - 1;
      PresentSize(devices[..n]);
      assert Present(devices) == Present(devices[..n]) + {devices[n].addr} by {
        assert forall i :: 0 <= i < n ==> devices[..n][i] == devices[i];
      }
    }
  }

  /** A full table with fewer than 64 present devices has one to evict. */
  lemma EvictionFindsOne(devices: seq<Device>)
    requires TableInv(devices) && |devices| == MAX_DEVICES && |Present(devices)| < MAX_DEVICES
    ensures var w := Stalest(devices);
            devices[w].missed > 0 && Evicted(devices) == RemoveAt(devices, w)
  {
    var w := Stalest(devices);
    if devices[w].missed == 0 {
      forall i | 0 <= i < |devices| ensures devices[i].missed == 0 {
        assert NoStaler(devices[i], devices[w]);
      }
      PresentSize(devices);
    }
  }

  lemma RemovedPresent(devices: seq<Device>, w: nat)
    requires UniqueAddrs(devices) && w < |devices| && devices[w].missed > 0
    ensures UniqueAddrs(RemoveAt(devices, w))
    ensures Present(RemoveAt(devices, w)) == Present(devices)
  {
    var rest := RemoveAt(devices, w);
    assert forall i :: 0 <= i < |rest| ==> rest[i] == devices[if i < w then i else i + 1];
    forall a | a in Present(devices) ensures a in Present(rest) {
      var i :| 0 <= i < |devices| && devices[i].missed == 0 && devices[i].addr == a;
      assert rest[if i < w then i else i - 1].addr == a;
    }
  }

  /** A result is always recorded while the table is not full of present devices. */
  lemma FoldedKeeps(devices: seq<Device>, r: ScanResult)
    requires TableInv(devices) && |Present(devices)| < MAX_DEVICES
    ensures TableInv(Folded(devices, r))
    ensures Present(Folded(devices, r)) == Present(devices) + {r.addr}
  {
    hide Present, Evicted, Find, Stalest;
    var i := Find(devices, DeviceAddr, r.addr);
    if i < |devices| {
      SeenPresent(devices, i, r);
    } else {
      var room := devices;
      if |devices| == MAX_DEVICES {
        EvictionFindsOne(devices);
        var w := Stalest(devices);
        RemovedPresent(devices, w);
        room := RemoveAt(devices, w);
        assert forall k :: 0 <= k < |room| ==> room[k] == devices[if k < w then k else k + 1];
      }
      assert Folded(devices, r) == room + [NewDevice(r)];
      PresentAppend(room, NewDevice(r));
    }
  }

  lemma SeenPresent(devices: seq<Device>, i: nat, r: ScanResult)
    requires i < |devices| && devices[i].addr == r.addr
    ensures Present(devices[i := Seen(devices[i], r)]) == Present(devices) + {r.addr}
  {
    var t := devices[i := Seen(devices[i], r)];
    assert t[i].missed == 0 && t[i].addr == r.addr;
    forall a | a in Present(devices) ensures a in Present(t) {
      var k :| 0 <= k < |devices| && devices[k].missed == 0 && devices[k].addr == a;
      assert t[k].addr == a && t[k].missed == 0;
    }
  }

  lemma PresentAppend(devices: seq<Device>, d: Device)
    requires d.missed == 0
    ensures Present(devices + [d]) == Present(devices) + {d.addr}
  {
    var t := devices + [d];
    assert t[|devices|] == d;
    forall a | a in Present(devices) ensures a in Present(t) {
      var k :| 0 <= k < |devices| && devices[k].missed == 0 && devices[k].addr == a;
      assert t[k] == devices[k];
    }
  }

  lemma {:induction false} FoldedAllKeeps(devices: seq<Device>, results: seq<ScanResult>)
    requires TableInv(devices) && |Present(devices)| <= MAX_RESULTS && |results| <= MAX_RESULTS
    ensures TableInv(FoldedAll(devices, results))
    ensures Present(FoldedAll(devices, results)) == Present(devices) + Addrs(results)
    ensures |Present(FoldedAll(devices, results))| <= |Present(devices)| + |results|
  {
    if results != [] {
      var n := |results| - 1;
      FoldedAllKeeps(devices, results[..n]);
      FoldedKeeps(FoldedAll(devices, results[..n]), results[n]);
      AddrsSnoc(results);
    }
  }

  lemma AddrsSnoc(results: seq<ScanResult>)
    requires results != []
    ensures var n := |results| - 1; Addrs(results) == Addrs(results[..n]) + {results[n].addr}
  {
    var n := |results| - 1;
    assert results == results[..n] + [results[n]];
  }

  lemma {:induction false} AddrsSize(results: seq<ScanResult>)
    ensures |Addrs(results)| <= |results|
  {
    if results != [] {
      AddrsSize(results[..|results| - 1]);
      AddrsSnoc(results);
    }
  }

  /** Ageing marks exactly the devices without a result. */
  lemma AgedPresent(devices: seq<Device>, results: seq<ScanResult>)
    ensures UniqueAddrs(devices) ==> UniqueAddrs(AgedAll(devices, results))
    ensures Present(AgedAll(devices, results)) == Present(devices) * Addrs(results)
  {
    var t := AgedAll(devices, results);
    forall a | a in Present(t) ensures a in Present(devices) && a in Addrs(results) {
      var i :| 0 <= i < |t| && t[i].missed == 0 && t[i].addr == a;
      assert t[i] == Aged(devices[i], results);
      var k :| 0 <= k < |results| && results[k].addr == devices[i].addr;
      assert results[k] in results;
    }
    forall a | a in Present(devices) && a in Addrs(results) ensures a in Present(t) {
      var i :| 0 <= i < |devices| && devices[i].missed == 0 && devices[i].addr == a;
      var r :| r in results && r.addr == a;
      var k :| 0 <= k < |results| && results[k] == r;
      assert t[i] == devices[i];
    }
  }

  /** After a round the present devices are exactly the reported ones: no result
      is dropped at the cap and nobody else looks present. */
  lemma MergedKeeps(devices: seq<Device>, results: seq<ScanResult>)
    requires TableInv(devices) && |Present(devices)| <= MAX_RESULTS && |results| <= MAX_RESULTS
    ensures var t := Merged(devices, results);
            TableInv(t) && Present(t) == Addrs(results) && |Present(t)| <= MAX_RESULTS
  {
    hide Present, Addrs, FoldedAll, Aged, UniqueAddrs;
    FoldedAllKeeps(devices, results);
    AgedPresent(FoldedAll(devices, results), results);
    AddrsSize(results);
  }

  function Rounds(rounds: seq<seq<ScanResult>>): seq<Device> {
    if rounds == [] then [] else Merged(Rounds(rounds[..|rounds| - 1]), rounds[|rounds| - 1])
  }

  /** Over any sequence of scan rounds the table stays within its cap with
      unique addresses, and shows as present exactly the last round. */
  lemma {:induction false} NoReportedDeviceIsLost(rounds: seq<seq<ScanResult>>)
    requires forall i :: 0 <= i < |rounds| ==> |rounds[i]| <= 32
    ensures TableInv(Rounds(rounds)) && |Rounds(rounds)| <= 64
    ensures Present(Rounds(rounds)) == if rounds == [] then {} else Addrs(rounds[|rounds| - 1])
    ensures |Present(Rounds(rounds))| <= MAX_RESULTS
  {
    if rounds != [] {
      var n := |rounds| - 1;
      NoReportedDeviceIsLost(rounds[..n]);
      MergedKeeps(Rounds(rounds[..n]), rounds[n]);
    }
  }

  // --- What a round does to a device -----------------------------------------------------

  /** A known device takes over what the result says, but keeps its name if the
      result has none. */
  lemma {:induction false} FoldKnown(devices: seq<Device>, r: ScanResult, i: nat)
    requires UniqueAddrs(devices) && i < |devices| && devices[i].addr == r.addr
    ensures var d := devices[i];
            Folded(devices, r)
            == devices[i := Device(r.addr, r.addrType, r.rssi, if r.name == "" then d.name else r.name,
                                   if d.count < 0xFFFF_FFFF then d.count + 1 else d.count, 0)]
  {
    var j := Find(devices, DeviceAddr, r.addr);
    assert j == i;
  }

  /** A new device goes to the end; at the cap it replaces a device missed most
      often, and weakest among those. */
  lemma {:induction false} FoldNew(devices: seq<Device>, r: ScanResult)
    requires TableInv(devices) && |Present(devices)| < 64
    requires forall i :: 0 <= i < |devices| ==> devices[i].addr != r.addr
    ensures var d := Device(r.addr, r.addrType, r.rssi, r.name, 1, 0);
            if |devices| < 64 then Folded(devices, r) == devices + [d]
            else exists w: nat :: IsStalest(devices, w) && Folded(devices, r) == devices[..w] + devices[w + 1..] + [d]
  {
    hide Present;
    if |devices| == 64 {
      EvictionFindsOne(devices);
      StalestIsStalest(devices);
    }
  }

  /** `w` has been missed, no other device more often, and none as often is weaker. */
  ghost predicate IsStalest(devices: seq<Device>, w: nat) {
    && w < |devices| && devices[w].missed > 0
    && forall k :: 0 <= k < |devices| ==>
         && devices[k].missed <= devices[w].missed
         && (devices[k].missed == devices[w].missed ==> devices[k].rssi >= devices[w].rssi)
  }

  lemma StalestIsStalest(devices: seq<Device>)
    requires devices != [] && devices[Stalest(devices)].missed > 0
    ensures IsStalest(devices, Stalest(devices))
  {
    var w := Stalest(devices);
    assert forall k :: 0 <= k < |devices| ==> NoStaler(devices[k], devices[w]);
  }

  ghost function AddrSet(devices: seq<Device>): set<Addr> {
    set i | 0 <= i < |devices| :: devices[i].addr
  }

  lemma {:induction false} AddrSetSize(devices: seq<Device>)
    requires UniqueAddrs(devices)
    ensures |AddrSet(devices)| == |devices|
  {
    if devices != [] {
      var n := |devices| - 1;
      AddrSetSize(devices[..n]);
      assert AddrSet(devices) == AddrSet(devices[..n]) + {devices[n].addr} by {
        assert forall i :: 0 <= i < n ==> devices[..n][i] == devices[i];
      }
    }
  }

  /** While all addresses together are within the cap, no device moves or leaves. */
  lemma {:induction false} FoldedAllInPlace(devices: seq<Device>, results: seq<ScanResult>)
    requires TableInv(devices) && |Present(devices)| <= MAX_RESULTS && |results| <= MAX_RESULTS
    requires |AddrSet(devices) + Addrs(results)| <= 64
    ensures var t := FoldedAll(devices, results);
            && |t| >= |devices| && AddrSet(t) == AddrSet(devices) + Addrs(results)
            && forall k :: 0 <= k < |devices| ==>
                 && t[k].addr == devices[k].addr
                 && (devices[k].addr !in Addrs(results) ==> t[k] == devices[k])
    decreases |results|
  {
    hide Present, Folded;
    if results == [] {
      assert Addrs(results) == {};
    } else {
      var init, r := results[..|results| - 1], results[|results| - 1];
      AddrsSnoc(results);
      Subsets(AddrSet(devices) + Addrs(init), AddrSet(devices) + Addrs(results));
      FoldedAllInPlace(devices, init);
      FoldedAllKeeps(devices, init);
      var t := FoldedAll(devices, init);
      FoldInPlace(t, r, AddrSet(devices) + Addrs(results));
    }
  }

  lemma Subsets<T>(a: set<T>, b: set<T>)
    requires a <= b
    ensures |a| <= |b|
  {
    assert b == a + (b - a);
  }

  lemma FoldInPlace(devices: seq<Device>, r: ScanResult, all: set<Addr>)
    requires TableInv(devices) && AddrSet(devices) <= all && r.addr in all && |all| <= 64
    ensures var t := Folded(devices, r);
            && |t| >= |devices| && AddrSet(t) == AddrSet(devices) + {r.addr}
            && forall k :: 0 <= k < |devices| ==>
                 t[k].addr == devices[k].addr && (devices[k].addr != r.addr ==> t[k] == devices[k])
  {
    hide AddrSet, Evicted;
    var i, t := Find(devices, DeviceAddr, r.addr), Folded(devices, r);
    if i < |devices| {
      AddrSetUpdate(devices, i, Seen(devices[i], r));
    } else {
      AddrSetSize(devices);
      NotInAddrSet(devices, r.addr);
      Subsets(AddrSet(devices) + {r.addr}, all);
      assert |AddrSet(devices) + {r.addr}| == |devices| + 1;
      AddrSetAppend(devices, NewDevice(r));
    }
  }

  lemma AddrSetUpdate(devices: seq<Device>, i: nat, d: Device)
    requires i < |devices| && d.addr == devices[i].addr
    ensures AddrSet(devices[i := d]) == AddrSet(devices) + {d.addr}
  {
    var t := devices[i := d];
    assert forall k :: 0 <= k < |t| ==> t[k].addr == devices[k].addr;
    assert devices[i].addr in AddrSet(devices);
  }

  lemma AddrSetAppend(devices: seq<Device>, d: Device)
    ensures AddrSet(devices + [d]) == AddrSet(devices) + {d.addr}
  {
    var t := devices + [d];
    assert t[|devices|] == d;
    assert forall k :: 0 <= k < |devices| ==> t[k] == devices[k];
  }

  lemma NotInAddrSet(devices: seq<Device>, addr: Addr)
    requires forall k :: 0 <= k < |devices| ==> devices[k].addr != addr
    ensures addr !in AddrSet(devices)
  {
  }

  /** Then every device that was not reported stays in its place, unchanged but for
      one more missed round. */
  lemma {:induction false} UnreportedStay(devices: seq<Device>, results: seq<ScanResult>, k: nat)
    requires TableInv(devices) && |Present(devices)| <= MAX_RESULTS && |results| <= MAX_RESULTS
    requires |AddrSet(devices) + Addrs(results)| <= 64
    requires k < |devices| && devices[k].addr !in Addrs(results)
    ensures var t, d := Merged(devices, results), devices[k];
            k < |t| && t[k] == d.(missed := if d.missed < 255 then d.missed + 1 else d.missed)
  {
    hide Present, FoldedAll;
    FoldedAllInPlace(devices, results);
    forall j | 0 <= j < |results| ensures results[j].addr != devices[k].addr {
      assert results[j].addr in Addrs(results);
    }
  }

  /** A row shows a device as stale from its second missed round on. */
  lemma {:induction false} RowOfDevice(devices: seq<Device>, format: Device -> string, k: nat)
    requires k < |devices|
    ensures |Desired(devices, format)| == |devices|
    ensures var row := Desired(devices, format)[k];
            && row.addr == devices[k].addr && row.text == format(devices[k])
            && (row.icon == Circle <==> devices[k].missed >= 2)
  {
  }

  // --- The list on screen ------------------------------------------------------------------

  datatype Icon = Circle | InverseCircle

  datatype Row = Row(addr: Addr, text: string, icon: Icon)

  function RowAddr(r: Row): Addr { r.addr }

  predicate IsStale(d: Device) { d.missed >= STALE_AFTER }

  /** Target rows, one per device in table order; `format` formats a device. */
  function Desired(devices: seq<Device>, format: Device -> string): seq<Row> {
    seq(|devices|, i requires 0 <= i < |devices| =>
      Row(devices[i].addr, format(devices[i]), if IsStale(devices[i]) then Circle else InverseCircle))
  }

  datatype Edit =
    | Replace(rows: seq<Row>)
    | Insert(index: nat, row: Row)
    | Update(index: nat, row: Row)
    | Remove(index: nat)

  /** What the host does to its list: indices beyond the end are clamped on
      insert and refused on update and remove. */
  function Applied(screen: seq<Row>, e: Edit): seq<Row> {
    match e
    case Replace(rows) => rows
    case Insert(index, row) =>
      var i := if index < |screen| then index else |screen|;
      screen[..i] + [row] + screen[i..]
    case Update(index, row) => if index < |screen| then screen[index := row] else screen
    case Remove(index) => if index < |screen| then RemoveAt(screen, index) else screen
  }

  ghost function Replayed(edits: seq<Edit>): seq<Row> {
    if edits == [] then [] else Applied(Replayed(edits[..|edits| - 1]), edits[|edits| - 1])
  }

  ghost predicate UniqueRows(rows: seq<Row>) {
    forall i, j :: 0 <= i < j < |rows| ==> rows[i].addr != rows[j].addr
  }

  function InsertAt<T>(s: seq<T>, i: nat, x: T): seq<T>
    requires i <= |s|
  {
    s[..i] + [x] + s[i..]
  }

  /** Every row shows a device of the target. */
  ghost predicate Known(order: seq<Row>, desired: seq<Row>) {
    forall k :: 0 <= k < |order| ==> Find(desired, RowAddr, order[k].addr) < |desired|
  }

  /** The first `i` rows are in place. */
  ghost predicate Placed(order: seq<Row>, desired: seq<Row>, i: nat) {
    && i <= |order| && i <= |desired| && order[..i] == desired[..i]
    && UniqueRows(order) && Known(order, desired)
  }

  lemma TargetIsKnown(desired: seq<Row>, i: nat)
    requires i < |desired|
    ensures Find(desired, RowAddr, desired[i].addr) < |desired|
  {
  }

  lemma PlacedElsewhere(order: seq<Row>, desired: seq<Row>, i: nat)
    requires Placed(order, desired, i) && UniqueRows(desired) && i < |desired|
    ensures Find(order, RowAddr, desired[i].addr) >= i
  {
    hide Find;
    SamePrefix(order, desired, i);
  }

  lemma SamePrefix(order: seq<Row>, desired: seq<Row>, i: nat)
    requires i <= |order| && i <= |desired| && order[..i] == desired[..i]
    ensures forall j :: 0 <= j < i ==> order[j] == desired[j]
  {
    assert forall j :: 0 <= j < i ==> order[j] == order[..i][j] && desired[j] == desired[..i][j];
  }

  lemma RemoveKeepsUnique(order: seq<Row>, i: nat)
    requires UniqueRows(order) && i < |order|
    ensures UniqueRows(RemoveAt(order, i)) && RemoveAt(order, i)[i..] == order[i + 1..]
  {
    hide Find;
    var t := RemoveAt(order, i);
    assert forall k :: 0 <= k < |t| ==> t[k] == if k < i then order[k] else order[k + 1];
  }

  lemma NothingIsKnown(desired: seq<Row>)
    ensures Known([], desired)
  {
  }

  lemma InsertedAt(order: seq<Row>, i: nat, d: Row, k: nat)
    requires i <= |order| && k <= |order|
    ensures InsertAt(order, i, d)[k] == if k < i then order[k] else if k == i then d else order[k - 1]
  {
  }

  lemma InsertUnique(order: seq<Row>, i: nat, d: Row)
    requires UniqueRows(order) && i <= |order| && Find(order, RowAddr, d.addr) == |order|
    ensures UniqueRows(InsertAt(order, i, d))
  {
    hide Find, InsertAt;
    var t := InsertAt(order, i, d);
    InsertSize(order, i, d);
    forall a, b | 0 <= a < b < |t| ensures t[a].addr != t[b].addr {
      InsertedAt(order, i, d, a);
      InsertedAt(order, i, d, b);
    }
  }

  lemma InsertSize(order: seq<Row>, i: nat, d: Row)
    requires i <= |order|
    ensures |InsertAt(order, i, d)| == |order| + 1
  {
  }

  lemma InsertKnown(order: seq<Row>, desired: seq<Row>, i: nat, d: Row)
    requires Known(order, desired) && i <= |order| && Find(desired, RowAddr, d.addr) < |desired|
    ensures Known(InsertAt(order, i, d), desired)
  {
    hide Find, InsertAt;
    var t := InsertAt(order, i, d);
    InsertSize(order, i, d);
    forall k | 0 <= k < |t| ensures Find(desired, RowAddr, t[k].addr) < |desired| {
      InsertedAt(order, i, d, k);
    }
  }

  lemma KnownCons(r: Row, rows: seq<Row>, desired: seq<Row>)
    requires Known(rows, desired) && Find(desired, RowAddr, r.addr) < |desired|
    ensures Known([r] + rows, desired)
  {
    hide Known, Find;
    InsertKnown(rows, desired, 0, r);
    assert InsertAt(rows, 0, r) == [r] + rows;
  }

  lemma InsertPlaces(order: seq<Row>, desired: seq<Row>, i: nat)
    requires Placed(order, desired, i) && i < |desired| && Find(order, RowAddr, desired[i].addr) == |order|
    ensures Placed(InsertAt(order, i, desired[i]), desired, i + 1)
  {
    hide UniqueRows, Known, Find;
    var d := desired[i];
    var t := InsertAt(order, i, d);
    TargetIsKnown(desired, i);
    InsertUnique(order, i, d);
    InsertKnown(order, desired, i, d);
    assert t[..i + 1] == order[..i] + [d] && desired[..i + 1] == desired[..i] + [d];
  }

  lemma RemoveUnplaces(order: seq<Row>, desired: seq<Row>, i: nat, j: nat)
    requires Placed(order, desired, i) && i <= j < |order|
    ensures Placed(RemoveAt(order, j), desired, i)
    ensures Find(RemoveAt(order, j), RowAddr, order[j].addr) == |order| - 1
  {
    hide Find;
    var t := RemoveAt(order, j);
    assert forall k :: 0 <= k < |t| ==> t[k] == if k < j then order[k] else order[k + 1];
    assert t[..i] == order[..i];
  }

  lemma UpdatePlaces(order: seq<Row>, desired: seq<Row>, i: nat)
    requires Placed(order, desired, i) && i < |desired| && Find(order, RowAddr, desired[i].addr) == i < |order|
    ensures Placed(order[i := desired[i]], desired, i + 1)
  {
    hide Find;
    var t := order[i := desired[i]];
    assert t[..i + 1] == order[..i] + [desired[i]] && desired[..i + 1] == desired[..i] + [desired[i]];
  }

  lemma AllPlaced(order: seq<Row>, desired: seq<Row>)
    requires Placed(order, desired, |desired|)
    ensures order == desired
  {
    var n := |desired|;
    SamePrefix(order, desired, n);
    var k := if |order| > n then Find(desired, RowAddr, order[n].addr) else 0;
    assert |order| == n;
  }

  class Scanner {
    var devices: seq<Device>
    /** Mirror of the rows on screen. */
    var order: seq<Row>
    /** The list is on screen. */
    var active: bool
    /** Every list edit sent to the host. */
    ghost var edits: seq<Edit>

    ghost predicate Valid()
      reads this
    {
      TableInv(devices) && UniqueRows(order) && Replayed(edits) == order
    }

    constructor ()
      ensures Valid() && devices == [] && order == [] && !active
    {
      devices, order, active, edits := [], [], false, [];
    }

    /** A fresh empty list view: the host list and the mirror start over. */
    method PushList()
      modifies this`order, this`edits
      ensures order == [] && edits == old(edits) + [Replace([])] && Replayed(edits) == order
    {
      order := [];
      edits := edits + [Replace([])];
      assert edits[..|edits| - 1] == old(edits);
    }

    method EvictOne()
      modifies this`devices
      ensures devices == Evicted(old(devices))
    {
      if devices == [] {
        return;
      }
      var worst := 0;
      for k := 1 to |devices|
        invariant worst < k <= |devices| && worst == Stalest(devices[..k])
      {
        assert devices[..k + 1][..k] == devices[..k];
        if NoStaler(devices[worst], devices[k]) {
          worst := k;
        }
      }
      assert devices[..|devices|] == devices;
      if devices[worst].missed > 0 {
        devices := devices[..worst] + devices[worst + 1..];
      }
    }

    method Merge(results: seq<ScanResult>)
      requires Valid() && |Present(devices)| <= MAX_RESULTS && |results| <= MAX_RESULTS
      modifies this`devices
      ensures devices == Merged(old(devices), results)
      ensures Valid() && Present(devices) == Addrs(results)
    {
      hide Present, Folded, AgedAll, Aged, UniqueRows, Find, UniqueAddrs, Replayed, Addrs;
      ghost var before := devices;
      for k := 0 to |results|
        invariant devices == FoldedAll(before, results[..k])
      {
        assert results[..k + 1][..k] == results[..k];
        FoldedAllKeeps(before, results[..k]);
        Fold(results[k]);
      }
      assert results[..|results|] == results;
      AgeAll(results);
      MergedKeeps(before, results);
    }

    /** Take one scan result into the table. */
    method Fold(r: ScanResult)
      requires TableInv(devices) && |Present(devices)| < MAX_DEVICES
      modifies this`devices
      ensures devices == Folded(old(devices), r)
    {
      hide Present, Evicted, Find, Stalest, UniqueAddrs;
      var i := Find(devices, DeviceAddr, r.addr);
      if i < |devices| {
        devices := devices[i := Seen(devices[i], r)];
      } else {
        if |devices| >= MAX_DEVICES {
          EvictionFindsOne(devices);
          EvictOne();
          if |devices| >= MAX_DEVICES {
            assert false;
          }
        }
        devices := devices + [NewDevice(r)];
      }
    }

    /** Count a missed round for every device without a result. */
    method AgeAll(results: seq<ScanResult>)
      modifies this`devices
      ensures devices == AgedAll(old(devices), results)
    {
      ghost var folded := devices;
      for i := 0 to |devices|
        invariant |devices| == |folded|
        invariant forall j :: 0 <= j < i ==> devices[j] == Aged(folded[j], results)
        invariant forall j :: i <= j < |devices| ==> devices[j] == folded[j]
      {
        if !exists k :: 0 <= k < |results| && results[k].addr == devices[i].addr {
          var d := devices[i];
          devices := devices[i := d.(missed := if d.missed < MISSED_MAX then d.missed + 1 else d.missed)];
        }
      }
      assert devices == AgedAll(folded, results);
    }

    /** Bring the list to the target rows; `order`, the host's list and the
        target are then the same sequence. */
    method Render(format: Device -> string)
      requires Valid()
      modifies this`order, this`edits
      ensures order == Desired(devices, format) && Replayed(edits) == order
      ensures old(edits) <= edits && Valid()
      ensures old(order) == Desired(devices, format) ==> edits == old(edits)
    {
      var desired := Desired(devices, format);
      if order == [] {
        if desired == [] {
          return;
        }
        Send(Replace(desired));
        order := desired;
        return;
      }
      RemoveGone(desired);
      Reconcile(desired);
    }

    ghost method Send(e: Edit)
      modifies this`edits
      ensures edits == old(edits) + [e] && Replayed(edits) == Applied(Replayed(old(edits)), e)
    {
      edits := edits + [e];
      assert edits[..|edits| - 1] == old(edits);
    }

    /** From the bottom up, drop the rows of evicted devices. */
    method RemoveGone(desired: seq<Row>)
      requires UniqueRows(order) && Replayed(edits) == order
      modifies this`order, this`edits
      ensures UniqueRows(order) && Replayed(edits) == order && old(edits) <= edits
      ensures Known(order, desired)
      ensures old(order) == desired ==> edits == old(edits) && order == old(order)
    {
      hide UniqueRows, Known, Replayed, Find;
      NothingIsKnown(desired);
      var i := |order|;
      assert order[i..] == [];
      while i > 0
        invariant i <= |order| && UniqueRows(order) && Replayed(edits) == order && old(edits) <= edits
        invariant Known(order[i..], desired)
        invariant old(order) == desired ==> edits == old(edits) && order == old(order)
      {
        i := i - 1;
        if old(order) == desired {
          TargetIsKnown(desired, i);
        }
        if Find(desired, RowAddr, order[i].addr) == |desired| {
          RemoveKeepsUnique(order, i);
          Send(Remove(i));
          order := order[..i] + order[i + 1..];
        } else {
          assert order[i..] == [order[i]] + order[i + 1..];
          KnownCons(order[i], order[i + 1..], desired);
        }
      }
      assert order[0..] == order;
    }

    /** Put every desired row in its place, from the top down. */
    method Reconcile(desired: seq<Row>)
      requires UniqueRows(order) && Replayed(edits) == order && UniqueRows(desired) && Known(order, desired)
      modifies this`order, this`edits
      ensures order == desired && Replayed(edits) == order && old(edits) <= edits
      ensures old(order) == desired ==> edits == old(edits)
    {
      hide UniqueRows, Known, Replayed, Find;
      for i := 0 to |desired|
        invariant Placed(order, desired, i) && Replayed(edits) == order && old(edits) <= edits
        invariant old(order) == desired ==> edits == old(edits) && order == old(order)
      {
        PutRow(desired, i);
      }
      AllPlaced(order, desired);
    }

    /** Put the row of one desired device in its place. */
    method PutRow(desired: seq<Row>, i: nat)
      requires i < |desired| && UniqueRows(desired) && Placed(order, desired, i) && Replayed(edits) == order
      modifies this`order, this`edits
      ensures Placed(order, desired, i + 1) && Replayed(edits) == order && old(edits) <= edits
      ensures old(order) == desired ==> edits == old(edits) && order == old(order)
    {
      hide UniqueRows, Known, Replayed, Find;
      var d := desired[i];
      var j := Find(order, RowAddr, d.addr);
      PlacedElsewhere(order, desired, i);
      if j == |order| {
        InsertPlaces(order, desired, i);
        Send(Insert(i, d));
        order := order[..i] + [d] + order[i..];
      } else if j != i {
        RemoveUnplaces(order, desired, i, j);
        Send(Remove(j));
        order := order[..j] + order[j + 1..];
        InsertPlaces(order, desired, i);
        Send(Insert(i, d));
        order := order[..i] + [d] + order[i..];
      } else {
        UpdatePlaces(order, desired, i);
        if order[i].text != d.text || order[i].icon != d.icon {
          Send(Update(i, d));
          order := order[i := d];
        } else {
          assert order[i := d] == order;
        }
      }
    }

    /** Opening the plugin starts a new list. */
    method OnEnter(format: Device -> string)
      requires Valid()
      modifies this`active, this`order, this`edits
      ensures Valid() && active && order == Desired(devices, format)
    {
      hide UniqueRows, Replayed, UniqueAddrs;
      active := true;
      NoRows();
      PushList();
      Render(format);
    }

    method OnExit()
      modifies this`active
      ensures !active
    {
      active := false;
    }

    /** A scan round is over. */
    method OnResults(results: seq<ScanResult>, format: Device -> string)
      requires Valid() && |Present(devices)| <= MAX_RESULTS && |results| <= MAX_RESULTS
      modifies this`devices, this`order, this`edits
      ensures Valid() && devices == Merged(old(devices), results) && Present(devices) == Addrs(results)
      ensures active ==> order == Desired(devices, format)
    {
      hide UniqueRows, Replayed, UniqueAddrs, Present;
      Merge(results);
      if active {
        Render(format);
      }
    }
  }

  lemma NoRows()
    ensures UniqueRows([])
  {
  }

  datatype Event = Enter | Exit | Results(results: seq<ScanResult>)

  /** The rounds among the events. */
  function RoundsOf(events: seq<Event>): seq<seq<ScanResult>> {
    if events == [] then []
    else
      var init, e := RoundsOf(events[..|events| - 1]), events[|events| - 1];
      if e.Results? then init + [e.results] else init
  }

  /** Over any run of the plugin, the table is what the rounds make of it, and
      whenever the plugin is open the host's list shows just that table. */
  method Serve(s: Scanner, events: seq<Event>, format: Device -> string)
    requires s.Valid() && s.devices == [] && !s.active
    requires forall k :: 0 <= k < |events| && events[k].Results? ==> |events[k].results| <= MAX_RESULTS
    modifies s
    ensures s.Valid() && s.devices == Rounds(RoundsOf(events))
    ensures s.active ==> Replayed(s.edits) == Desired(s.devices, format)
  {
    hide UniqueRows, Replayed, UniqueAddrs, Present, Desired;
    for i := 0 to |events|
      invariant s.Valid() && s.devices == Rounds(RoundsOf(events[..i]))
      invariant forall k :: 0 <= k < |RoundsOf(events[..i])| ==> |RoundsOf(events[..i])[k]| <= MAX_RESULTS
      invariant s.active ==> s.order == Desired(s.devices, format)
    {
      assert events[..i + 1][..i] == events[..i];
      ghost var rounds := RoundsOf(events[..i]);
      NoReportedDeviceIsLost(rounds);
      match events[i] {
        case Enter => s.OnEnter(format);
        case Exit => s.OnExit();
        case Results(results) =>
          s.OnResults(results, format);
          RoundsSnoc(rounds, results);
      }
    }
    assert events[..|events|] == events;
  }

  lemma RoundsSnoc(rounds: seq<seq<ScanResult>>, results: seq<ScanResult>)
    ensures Rounds(rounds + [results]) == Merged(Rounds(rounds), results)
  {
    assert (rounds + [results])[..|rounds|] == rounds;
  }
}
