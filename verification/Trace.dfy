/** The trace client of trace.rs: demultiplexing of sample messages, and the accounting of
    missed records per watched entry. Values stay the bytes they came as. */
module Trace {
  import opened Arithmetic
  import opened Bytes
  import opened Options

  const U32: nat := 0x1_0000_0000
  const HALF_U32: nat := 0x7FFF_FFFF            // u32::MAX / 2
  const MAX_GAP_CHARGE: nat := 0x100_0000
  const BATCH_EMIT_MAX_POINTS: nat := 16384

  datatype WatchEntry = WatchEntry(size: nat, period: nat)

  datatype Samples = Samples(firstCycle: nat, periodCycles: nat, count: nat, data: seq<Byte>)

  datatype Point = Point(entry: nat, cycle: nat, bytes: seq<Byte>)

  predicate InTable(table: seq<WatchEntry>, group: seq<nat>) {
    forall i :: 0 <= i < |group| ==> group[i] < |table|
  }

  /** The entries of a group, in list order. */
  function Group(table: seq<WatchEntry>, period: nat, i: nat): (group: seq<nat>)
    ensures InTable(table, group)
    decreases |table| - i
  {
    if i >= |table| then [] else (if table[i].period == period then [i] else []) + Group(table, period, i + 1)
  }

  function RecordSize(table: seq<WatchEntry>, group: seq<nat>): (n: nat)
    requires InTable(table, group)
  {
    if group == [] then 0 else table[group[0]].size + RecordSize(table, group[1..])
  }

  /** The points of one record. */
  function Record(table: seq<WatchEntry>, group: seq<nat>, cycle: nat, data: seq<Byte>): (points: seq<Point>)
    requires InTable(table, group) && RecordSize(table, group) <= |data|
  {
    if group == [] then []
    else
      var size := table[group[0]].size;
      [Point(group[0], cycle, data[..size])] + Record(table, group[1..], cycle, data[size..])
  }

  /** The points of `count` records in a row, each captured one period after the one before. */
  function Records(table: seq<WatchEntry>, group: seq<nat>, cycle: nat, period: nat, count: nat,
                   data: seq<Byte>): (points: seq<Point>)
    requires InTable(table, group)
    decreases count
  {
    var record := RecordSize(table, group);
    if count == 0 || |data| < record then []
    else
      Record(table, group, cycle, data)
        + Records(table, group, (cycle + period) % U32, period, count - 1, data[record..])
  }

  /** What a message stands for: nothing, unless its data are whole records of a group. */
  function Demuxed(table: seq<WatchEntry>, samples: Samples): (points: seq<Point>) {
    var group := Group(table, samples.periodCycles, 0);
    var record := RecordSize(table, group);
    if record == 0 || samples.count == 0 || samples.count * record != |samples.data| then []
    else Records(table, group, samples.firstCycle % U32, samples.periodCycles, samples.count, samples.data)
  }

  /** How many entries of a stretch of the list have a period. */
  function Members(table: seq<WatchEntry>, period: nat, i: nat, n: nat): (r: nat)
    requires i <= n <= |table|
    decreases n - i
  {
    if i == n then 0
    else (if table[i].period == period then 1 else 0) + Members(table, period, i + 1, n)
  }

  /** The sizes of those entries together. */
  function Width(table: seq<WatchEntry>, period: nat, i: nat, n: nat): (r: nat)
    requires i <= n <= |table|
    decreases n - i
  {
    if i == n then 0
    else (if table[i].period == period then table[i].size else 0) + Width(table, period, i + 1, n)
  }

  lemma {:induction false} GroupIs(table: seq<WatchEntry>, period: nat, from: nat, cycle: nat, data: seq<Byte>)
    requires from <= |table|
    ensures var group := Group(table, period, from);
      && |group| == Members(table, period, from, |table|)
      && RecordSize(table, group) == Width(table, period, from, |table|)
      && (RecordSize(table, group) <= |data| ==> |Record(table, group, cycle, data)| == |group|)
    decreases |table| - from
  {
    if from < |table| {
      var group, more := Group(table, period, from), Group(table, period, from + 1);
      if table[from].period == period {
        assert group[1..] == more;
        if RecordSize(table, group) <= |data| {
          GroupIs(table, period, from + 1, cycle, data[table[from].size..]);
        } else {
          GroupIs(table, period, from + 1, cycle, data);
        }
      } else {
        assert group == more;
        GroupIs(table, period, from + 1, cycle, data);
      }
    }
  }

  lemma SliceOfRest(data: seq<Byte>, at: nat, start: nat, n: nat)
    requires at + start + n <= |data|
    ensures data[at..][start..start + n] == data[at + start..at + start + n]
  {
  }

  /** The point of entry `i` in a record: its place, and its bytes. */
  lemma {:induction false} RecordAt(table: seq<WatchEntry>, period: nat, from: nat, i: nat, cycle: nat, data: seq<Byte>)
    requires from <= i < |table| && table[i].period == period
    requires Width(table, period, from, |table|) <= |data|
    ensures RecordSize(table, Group(table, period, from)) <= |data|
    ensures var at, start := Members(table, period, from, i), Width(table, period, from, i);
      && at < Members(table, period, from, |table|) && start + table[i].size <= |data|
      && at < |Record(table, Group(table, period, from), cycle, data)|
      && Record(table, Group(table, period, from), cycle, data)[at]
        == Point(i, cycle, data[start..start + table[i].size])
    decreases |table| - from
  {
    hide Record, RecordSize;
    GroupIs(table, period, from, cycle, data);
    var group, more := Group(table, period, from), Group(table, period, from + 1);
    if table[from].period == period {
      assert group[1..] == more;
      var size := table[from].size;
      RecordStep(table, group, cycle, data);
      if from < i {
        RecordAt(table, period, from + 1, i, cycle, data[size..]);
        var start := Width(table, period, from + 1, i);
        SliceOfRest(data, size, start, table[i].size);
      }
    } else {
      assert group == more;
      RecordAt(table, period, from + 1, i, cycle, data);
    }
  }

  lemma {:induction false} RecordLength(table: seq<WatchEntry>, group: seq<nat>, cycle: nat, data: seq<Byte>)
    requires InTable(table, group) && RecordSize(table, group) <= |data|
    ensures |Record(table, group, cycle, data)| == |group|
  {
    if group != [] {
      RecordLength(table, group[1..], cycle, data[table[group[0]].size..]);
    }
  }

  lemma OneLess(count: nat, n: nat)
    requires count > 0
    ensures count * n == n + (count - 1) * n && 0 <= (count - 1) * n
  {
  }

  lemma {:induction false} RecordsLength(table: seq<WatchEntry>, group: seq<nat>, cycle: nat, period: nat, count: nat,
                                         data: seq<Byte>)
    requires InTable(table, group) && count * RecordSize(table, group) <= |data|
    ensures |Records(table, group, cycle, period, count, data)| == count * |group|
    decreases count
  {
    hide RecordSize, Record;
    if count > 0 {
      var record := RecordSize(table, group);
      OneLess(count, record);
      OneLess(count, |group|);
      RecordLength(table, group, cycle, data);
      RecordsLength(table, group, (cycle + period) % U32, period, count - 1, data[record..]);
    }
  }

  /** Record k of a message: its points come k records later, from k records on, k periods
      later. */
  lemma {:induction false} RecordsAt(table: seq<WatchEntry>, group: seq<nat>, cycle: nat, period: nat, count: nat,
                                     data: seq<Byte>, k: nat)
    requires InTable(table, group) && count * RecordSize(table, group) <= |data| && k < count && cycle < U32
    ensures 0 <= k * RecordSize(table, group) <= |data| - RecordSize(table, group)
    ensures var all := Records(table, group, cycle, period, count, data);
      && 0 <= k * |group| <= |all| - |group|
      && all[k * |group|..k * |group| + |group|]
        == Record(table, group, (cycle + k * period) % U32, data[k * RecordSize(table, group)..])
    decreases count
  {
    hide RecordSize, Record;
    var record := RecordSize(table, group);
    OneLess(count, record);
    OneLess(count, |group|);
    RecordLength(table, group, cycle, data);
    RecordsLength(table, group, cycle, period, count, data);
    var first, next := Record(table, group, cycle, data), (cycle + period) % U32;
    var all, later := Records(table, group, cycle, period, count, data),
                      Records(table, group, next, period, count - 1, data[record..]);
    assert all == first + later;
    if k == 0 {
      assert all[..|group|] == first && data[0..] == data;
    } else {
      OneLess(k, record);
      OneLess(k, |group|);
      OneLess(k, period);
      RecordsAt(table, group, next, period, count - 1, data[record..], k - 1);
      LaterCycle(cycle, k, period);
      RestOfRest(data, record, (k - 1) * record);
      SliceBehind(first, later, (k - 1) * |group|, |group|);
    }
  }

  lemma RestOfRest(data: seq<Byte>, at: nat, more: nat)
    requires at + more <= |data|
    ensures data[at..][more..] == data[at + more..]
  {
  }

  lemma SliceBehind(first: seq<Point>, later: seq<Point>, at: nat, n: nat)
    requires at + n <= |later|
    ensures (first + later)[|first| + at..|first| + at + n] == later[at..at + n]
  {
  }

  lemma LaterCycle(cycle: nat, k: nat, period: nat)
    requires k > 0
    ensures ((cycle + period) % U32 + (k - 1) * period) % U32 == (cycle + k * period) % U32
  {
    OneLess(k, period);
    ModSum((k - 1) * period, cycle + period);
  }

  /** A message that is whole records of the group. */
  predicate Whole(table: seq<WatchEntry>, samples: Samples) {
    var record := Width(table, samples.periodCycles, 0, |table|);
    record > 0 && samples.count > 0 && samples.count * record == |samples.data|
  }

  /** The point of entry `i` in record `k`: the record's cycle, and the bytes behind those of
      the records before and of the entries before it in the list. */
  function Captured(table: seq<WatchEntry>, samples: Samples, k: nat, i: nat): (point: Option<Point>)
    requires i < |table|
  {
    var period := samples.periodCycles;
    var start := k * Width(table, period, 0, |table|) + Width(table, period, 0, i);
    if start + table[i].size > |samples.data| then None
    else Some(Point(i, (samples.firstCycle + k * period) % U32, samples.data[start..start + table[i].size]))
  }

  /** Record by record and in list order, this is where the point of record `k` for entry
      `i` is. */
  predicate InPlace(table: seq<WatchEntry>, samples: Samples, points: seq<Point>, k: nat, i: nat)
    requires i < |table|
  {
    var period := samples.periodCycles;
    var at := k * Members(table, period, 0, |table|) + Members(table, period, 0, i);
    0 <= at < |points| && Captured(table, samples, k, i) == Some(points[at])
  }

  /** Whole messages give a point for every record and every entry of the period; other
      messages give nothing. */
  predicate IsDemuxed(table: seq<WatchEntry>, samples: Samples, points: seq<Point>) {
    if Whole(table, samples) then
      && |points| == samples.count * Members(table, samples.periodCycles, 0, |table|)
      && forall k, i :: 0 <= k < samples.count && 0 <= i < |table| && table[i].period == samples.periodCycles ==>
           InPlace(table, samples, points, k, i)
    else points == []
  }

  lemma DemuxedIs(table: seq<WatchEntry>, samples: Samples)
    ensures IsDemuxed(table, samples, Demuxed(table, samples))
  {
    hide InPlace, Members, Width, Group, RecordSize;
    var period, group := samples.periodCycles, Group(table, samples.periodCycles, 0);
    GroupIs(table, period, 0, 0, []);
    if Whole(table, samples) {
      RecordsLength(table, group, samples.firstCycle % U32, period, samples.count, samples.data);
      forall k, i | 0 <= k < samples.count && 0 <= i < |table| && table[i].period == period
        ensures InPlace(table, samples, Demuxed(table, samples), k, i)
      {
        PointAt(table, samples, k, i);
      }
    }
  }

  lemma PointAt(table: seq<WatchEntry>, samples: Samples, k: nat, i: nat)
    requires Whole(table, samples) && k < samples.count && i < |table| && table[i].period == samples.periodCycles
    ensures InPlace(table, samples, Demuxed(table, samples), k, i)
  {
    hide Record, RecordSize, Records, Members, Width, Group;
    var period, group, data := samples.periodCycles, Group(table, samples.periodCycles, 0), samples.data;
    GroupIs(table, period, 0, 0, []);
    var record, m, j, cycle := Width(table, period, 0, |table|), |group|, Members(table, period, 0, i),
                               (samples.firstCycle + k * period) % U32;
    RecordsAt(table, group, samples.firstCycle % U32, period, samples.count, data, k);
    ModSum(k * period, samples.firstCycle);
    RecordAt(table, period, 0, i, cycle, data[k * record..]);
    var all := Demuxed(table, samples);
    assert all[k * m..k * m + m][j] == all[k * m + j];
    var start := Width(table, period, 0, i);
    SliceOfRest(data, k * record, start, table[i].size);
  }

  lemma CycleOf(first: nat, k: nat, period: nat)
    ensures (first + k * period % U32) % U32 == (first + k * period) % U32
    ensures ((first + k * period) % U32 + period) % U32 == (first + (k + 1) * period) % U32
  {
    var n := k * period;
    assert (k + 1) * period == n + period;
    ModSum(first, n);
    ModSum(period, first + n);
  }

  lemma ModSum(a: nat, n: nat)
    ensures (a + n % U32) % U32 == (a + n) % U32
  {
    var q := n / U32;
    assert a + n == (a + n % U32) + q * U32;
    ModMultiple(a + n % U32, q);
  }

  lemma {:induction false} ModMultiple(a: nat, q: nat)
    ensures (a + q * U32) % U32 == a % U32
  {
    if q > 0 {
      ModMultiple(a, q - 1);
      assert a + q * U32 == a + (q - 1) * U32 + U32;
    }
  }

  /** demux. */
  method Demux(table: seq<WatchEntry>, samples: Samples) returns (out: seq<Point>)
    ensures out == Demuxed(table, samples) && IsDemuxed(table, samples, out)
  {
    hide RecordSize, Record, Records, IsDemuxed;
    DemuxedIs(table, samples);
    var group := Group(table, samples.periodCycles, 0);
    var record := RecordSize(table, group);
    if record == 0 || samples.count == 0 || record * samples.count != |samples.data| {
      return [];
    }
    out := [];
    var offset := 0;
    ghost var all, next, left := Demuxed(table, samples), samples.firstCycle % U32, samples.count * record;
    for k := 0 to samples.count
      invariant 0 <= offset && offset + left == |samples.data| && left == (samples.count - k) * record
      invariant next == (samples.firstCycle + k * samples.periodCycles) % U32
      invariant all
        == out + Records(table, group, next, samples.periodCycles, samples.count - k, samples.data[offset..])
    {
      CycleOf(samples.firstCycle, k, samples.periodCycles);
      Distributes(1, samples.count - k - 1, record);
      var cycle := (samples.firstCycle + k * samples.periodCycles % U32) % U32;
      RecordsStep(table, group, next, samples.periodCycles, samples.count - k, samples.data[offset..]);
      var points := OneRecord(table, group, cycle, samples.data[offset..]);
      out := out + points;
      assert samples.data[offset..][record..] == samples.data[offset + record..];
      offset := offset + record;
      next, left := (next + samples.periodCycles) % U32, left - record;
    }
    RecordsStep(table, group, next, samples.periodCycles, 0, samples.data[offset..]);
  }

  lemma RecordsStep(table: seq<WatchEntry>, group: seq<nat>, cycle: nat, period: nat, count: nat, data: seq<Byte>)
    requires InTable(table, group) && (count > 0 ==> RecordSize(table, group) <= |data|)
    ensures count == 0 ==> Records(table, group, cycle, period, count, data) == []
    ensures count > 0 ==>
      Records(table, group, cycle, period, count, data) ==
      Record(table, group, cycle, data)
        + Records(table, group, (cycle + period) % U32, period, count - 1, data[RecordSize(table, group)..])
  {
  }

  /** The inner loop of demux. */
  method OneRecord(table: seq<WatchEntry>, group: seq<nat>, cycle: nat, data: seq<Byte>) returns (out: seq<Point>)
    requires InTable(table, group) && RecordSize(table, group) <= |data|
    ensures out == Record(table, group, cycle, data)
  {
    hide RecordSize, Record;
    out := [];
    assert group[0..] == group && data[0..] == data;
    var offset := 0;
    for i := 0 to |group|
      invariant offset + RecordSize(table, group[i..]) <= |data|
      invariant Record(table, group, cycle, data) == out + Record(table, group[i..], cycle, data[offset..])
    {
      assert group[i..][1..] == group[i + 1..];
      var size := table[group[i]].size;
      RecordStep(table, group[i..], cycle, data[offset..]);
      assert data[offset..][..size] == data[offset..offset + size] && data[offset..][size..] == data[offset + size..];
      out := out + [Point(group[i], cycle, data[offset..offset + size])];
      offset := offset + size;
    }
    assert group[|group|..] == [];
    RecordStep(table, [], cycle, data[offset..]);
  }

  lemma RecordStep(table: seq<WatchEntry>, group: seq<nat>, cycle: nat, data: seq<Byte>)
    requires InTable(table, group) && RecordSize(table, group) <= |data|
    ensures group == [] ==> RecordSize(table, group) == 0 && Record(table, group, cycle, data) == []
    ensures group != [] ==>
      var size := table[group[0]].size;
      && RecordSize(table, group) == size + RecordSize(table, group[1..])
      && Record(table, group, cycle, data)
        == [Point(group[0], cycle, data[..size])] + Record(table, group[1..], cycle, data[size..])
  {
  }

  /** What ingest charges for the gap between an entry's last cycle and the next one. */
  function Charge(prev: Option<nat>, cycle: nat, period: nat): (n: nat)
    requires period > 0
  {
    if prev.None? then 0
    else
      var delta := (cycle - prev.value) % U32;
      if delta <= HALF_U32 && delta > period then
        var missed := delta / period - 1;
        if missed < MAX_GAP_CHARGE then missed else MAX_GAP_CHARGE
      else 0
  }

  /** The cycles of one entry among some points. */
  function CyclesOf(points: seq<Point>, e: nat): (cycles: seq<nat>) {
    if points == [] then []
    else
      CyclesOf(points[..|points| - 1], e)
        + (if points[|points| - 1].entry == e then [points[|points| - 1].cycle] else [])
  }

  function PointsOf(points: seq<Point>, e: nat): (own: seq<Point>) {
    if points == [] then []
    else PointsOf(points[..|points| - 1], e) + (if points[|points| - 1].entry == e then [points[|points| - 1]] else [])
  }

  lemma {:induction false} AsManyAsCycles(points: seq<Point>, e: nat)
    ensures |PointsOf(points, e)| == |CyclesOf(points, e)|
  {
    if points != [] {
      AsManyAsCycles(points[..|points| - 1], e);
    }
  }

  function Last(cycles: seq<nat>): (last: Option<nat>) {
    if cycles == [] then None else Some(cycles[|cycles| - 1])
  }

  /** All charges of an entry that delivered these cycles. */
  function Charges(cycles: seq<nat>, period: nat): (n: nat)
    requires period > 0
  {
    if cycles == [] then 0
    else
      var before := cycles[..|cycles| - 1];
      Charges(before, period) + Charge(Last(before), cycles[|cycles| - 1], period)
  }

  /** The real cycle indices of an entry, and how many periods each is ahead of the last. */
  predicate InOrder(indices: seq<nat>, gaps: seq<nat>, period: nat) {
    && |indices| == |gaps| + 1
    && forall i :: 0 <= i < |gaps| ==>
         && gaps[i] > 0 && indices[i + 1] == indices[i] + gaps[i] * period
         && gaps[i] * period <= HALF_U32 && gaps[i] - 1 <= MAX_GAP_CHARGE
  }

  /** So many points, one period apart, lead from the first index to the last one. */
  predicate Covers(count: nat, indices: seq<nat>, period: nat) {
    indices != [] && indices[|indices| - 1] == (count as int - 1) * period + indices[0]
  }

  function Wrapped(indices: seq<nat>): (cycles: seq<nat>)
    ensures |cycles| == |indices|
  {
    seq(|indices|, i requires 0 <= i < |indices| => indices[i] % U32)
  }

  lemma ChargeIsGap(before: nat, gap: nat, period: nat)
    requires period > 0 && gap > 0 && gap * period <= HALF_U32 && gap - 1 <= MAX_GAP_CHARGE
    ensures Charge(Some(before % U32), (before + gap * period) % U32, period) == gap - 1
  {
    WrapDifference(before, gap * period);
    Remainder(gap, period, 0);
    Distributes(gap - 1, 1, period);
    ProductAwayFromZero(gap - 1, period);
  }

  /** The charge by the real distance of two cycle indices, which the words of the indices
      tell within half their range: one step back, or none, is free, and a gap is charged up
      to the cap. */
  lemma ChargeIs(before: nat, d: int, period: nat)
    requires period > 0 && before + d >= 0 && 0 <= 2 * d + U32 < 2 * U32
    ensures Charge(Some(before % U32), (before + d) % U32, period) ==
      if d <= period then 0
      else if d / period - 1 > MAX_GAP_CHARGE then MAX_GAP_CHARGE
      else d / period - 1
  {
    if d >= 0 {
      WrapDifference(before, d);
    } else {
      WrapDifference(before + d, -d);
      var delta := ((before + d) % U32 - before % U32) % U32;
      assert delta == U32 + d;
    }
  }

  lemma WrapDifference(before: nat, d: nat)
    requires d < U32
    ensures ((before + d) % U32 - before % U32) % U32 == d
  {
  }

  lemma NoChargeAtFirst(cycle: nat, period: nat)
    requires period > 0
    ensures Charge(None, cycle, period) == 0
  {
  }

  lemma CoversOn(count: nat, indices: seq<nat>, gap: nat, period: nat)
    requires |indices| > 1 && Covers(count, indices[..|indices| - 1], period)
    requires indices[|indices| - 1] == indices[|indices| - 2] + gap * period
    ensures Covers(count + gap, indices, period)
  {
    Distributes(count - 1, gap, period);
  }

  /** The points of an entry and its charges are as many as the periods from its first point
      to its last one, across any number of wraps. */
  lemma {:induction false} GapsAreCharged(indices: seq<nat>, gaps: seq<nat>, period: nat)
    requires period > 0 && InOrder(indices, gaps, period)
    ensures Covers(|indices| + Charges(Wrapped(indices), period), indices, period)
  {
    hide Charge, Covers, InOrder;
    var n := |gaps|;
    LastGap(indices, gaps, period);
    var cycles := Wrapped(indices);
    if n == 0 {
      assert cycles[..0] == [] && Last(cycles[..0]) == None;
      NoChargeAtFirst(cycles[0], period);
      CoversOne(indices, period);
    } else {
      var r := indices[..n];
      GapsAreCharged(r, gaps[..n - 1], period);
      assert cycles[..n] == Wrapped(r);
      assert Last(Wrapped(r)) == Some(indices[n - 1] % U32);
      ChargeIsGap(indices[n - 1], gaps[n - 1], period);
      CoversOn(n + Charges(Wrapped(r), period), indices, gaps[n - 1], period);
    }
  }

  lemma CoversOne(indices: seq<nat>, period: nat)
    requires |indices| == 1
    ensures Covers(1, indices, period)
  {
  }

  lemma LastGap(indices: seq<nat>, gaps: seq<nat>, period: nat)
    requires InOrder(indices, gaps, period)
    ensures |indices| == |gaps| + 1
    ensures gaps != [] ==>
      var n := |gaps|; var gap := gaps[n - 1];
      && InOrder(indices[..n], gaps[..n - 1], period) && indices[n] == indices[n - 1] + gap * period
      && gap > 0 && gap * period <= HALF_U32 && gap - 1 <= MAX_GAP_CHARGE
  {
  }

  /** What a flush hands on for each entry that has points, in list order. */
  function Series(buffers: seq<seq<Point>>, i: nat): (signals: seq<(nat, seq<Point>)>)
    decreases |buffers| - i
  {
    if i >= |buffers| then [] else (if buffers[i] == [] then [] else [(i, buffers[i])]) + Series(buffers, i + 1)
  }

  /** The points that a batch carries for an entry. */
  function PointsIn(signals: seq<(nat, seq<Point>)>, e: nat): (points: seq<Point>) {
    if signals == [] then [] else (if signals[0].0 == e then signals[0].1 else []) + PointsIn(signals[1..], e)
  }

  /** No empty series, and one for each entry at most, in list order. */
  predicate Ordered(signals: seq<(nat, seq<Point>)>, i: nat) {
    && (forall k :: 0 <= k < |signals| ==> i <= signals[k].0 && signals[k].1 != [])
    && (forall k, l :: 0 <= k < l < |signals| ==> signals[k].0 < signals[l].0)
  }

  lemma {:induction false} SeriesInOrder(buffers: seq<seq<Point>>, i: nat)
    ensures Ordered(Series(buffers, i), i)
    decreases |buffers| - i
  {
    if i < |buffers| {
      SeriesInOrder(buffers, i + 1);
    }
  }

  lemma {:induction false} SeriesCarries(buffers: seq<seq<Point>>, i: nat, e: nat)
    requires e < |buffers|
    ensures PointsIn(Series(buffers, i), e) == if e < i then [] else buffers[e]
    decreases |buffers| - i
  {
    if i < |buffers| {
      SeriesCarries(buffers, i + 1, e);
      var rest := Series(buffers, i + 1);
      assert buffers[i] + [] == buffers[i] && [] + PointsIn(rest, e) == PointsIn(rest, e);
      if buffers[i] != [] {
        assert Series(buffers, i) == [(i, buffers[i])] + rest && Series(buffers, i)[1..] == rest;
      } else {
        assert Series(buffers, i) == rest;
      }
    }
  }

  lemma SeriesIs(buffers: seq<seq<Point>>)
    ensures Ordered(Series(buffers, 0), 0)
    ensures forall e :: 0 <= e < |buffers| ==> PointsIn(Series(buffers, 0), e) == buffers[e]
  {
    SeriesInOrder(buffers, 0);
    forall e | 0 <= e < |buffers|
      ensures PointsIn(Series(buffers, 0), e) == buffers[e]
    {
      SeriesCarries(buffers, 0, e);
    }
  }

  datatype Batch = Batch(signals: seq<(nat, seq<Point>)>, droppedRecords: nat)

  function Add(sums: seq<nat>): (n: nat) {
    if sums == [] then 0 else Add(sums[..|sums| - 1]) + sums[|sums| - 1]
  }

  lemma {:induction false} AddOne(sums: seq<nat>, i: nat, n: nat)
    requires i < |sums|
    ensures Add(sums[i := sums[i] + n]) == Add(sums) + n
  {
    var now := sums[i := sums[i] + n];
    if i < |sums| - 1 {
      assert now[..|sums| - 1] == sums[..|sums| - 1][i := sums[i] + n];
      AddOne(sums[..|sums| - 1], i, n);
    } else {
      assert now[..|sums| - 1] == sums[..|sums| - 1];
    }
  }

  /** What an entry has delivered, its last cycle and its charges agree with the points that
      came. */
  ghost predicate EntryOk(log: seq<Point>, e: nat, period: nat, points: seq<Point>, prev: Option<nat>, charged: nat)
    requires period > 0
  {
    points == PointsOf(log, e) && prev == Last(CyclesOf(log, e)) && charged == Charges(CyclesOf(log, e), period)
  }

  lemma EntryGrows(log: seq<Point>, e: nat, period: nat, points: seq<Point>, prev: Option<nat>, charged: nat,
                   point: Point)
    requires period > 0 && EntryOk(log, e, period, points, prev, charged)
    ensures if point.entry == e then
        EntryOk(log + [point], e, period, points + [point], Some(point.cycle),
                charged + Charge(prev, point.cycle, period))
      else
        EntryOk(log + [point], e, period, points, prev, charged)
  {
    hide Charge;
    assert (log + [point])[..|log|] == log;
    var cycles := CyclesOf(log, e);
    if point.entry == e {
      assert (cycles + [point.cycle])[..|cycles|] == cycles;
    } else {
      assert cycles + [] == cycles && PointsOf(log, e) + [] == PointsOf(log, e);
    }
  }

  /** What Valid says of each entry. */
  ghost predicate EntriesOk(table: seq<WatchEntry>, log: seq<Point>, flushed: seq<seq<Point>>, buffers: seq<seq<Point>>,
                            prev: seq<Option<nat>>, charged: seq<nat>) {
    && |buffers| == |prev| == |flushed| == |charged| == |table|
    && forall e :: 0 <= e < |table| ==>
         && table[e].period > 0
         && EntryOk(log, e, table[e].period, flushed[e] + buffers[e], prev[e], charged[e])
  }

  lemma EntriesGrow(table: seq<WatchEntry>, log: seq<Point>, flushed: seq<seq<Point>>, buffers: seq<seq<Point>>,
                    prev: seq<Option<nat>>, charged: seq<nat>, point: Point)
    requires EntriesOk(table, log, flushed, buffers, prev, charged) && point.entry < |table|
    ensures var e := point.entry;
      EntriesOk(table, log + [point], flushed, buffers[e := buffers[e] + [point]], prev[e := Some(point.cycle)],
                charged[e := charged[e] + Charge(prev[e], point.cycle, table[e].period)])
  {
    hide EntryOk, Charge;
    forall i | 0 <= i < |table|
      ensures if i == point.entry then
          EntryOk(log + [point], i, table[i].period, flushed[i] + (buffers[i] + [point]), Some(point.cycle),
                  charged[i] + Charge(prev[i], point.cycle, table[i].period))
        else
          EntryOk(log + [point], i, table[i].period, flushed[i] + buffers[i], prev[i], charged[i])
    {
      EntryGrows(log, i, table[i].period, flushed[i] + buffers[i], prev[i], charged[i], point);
      assert flushed[i] + buffers[i] + [point] == flushed[i] + (buffers[i] + [point]);
    }
  }

  /** What a flush moves from the buffers to past batches, entry by entry. */
  function Joined(flushed: seq<seq<Point>>, buffers: seq<seq<Point>>): (all: seq<seq<Point>>)
    requires |flushed| == |buffers|
    ensures |all| == |flushed| && forall e :: 0 <= e < |all| ==> all[e] == flushed[e] + buffers[e]
  {
    seq(|flushed|, e requires 0 <= e < |flushed| => flushed[e] + buffers[e])
  }

  lemma FlushedOk(table: seq<WatchEntry>, log: seq<Point>, flushed: seq<seq<Point>>, buffers: seq<seq<Point>>,
                  prev: seq<Option<nat>>, charged: seq<nat>)
    requires EntriesOk(table, log, flushed, buffers, prev, charged)
    ensures EntriesOk(table, log, Joined(flushed, buffers), seq(|table|, _ => []), prev, charged)
  {
    hide EntryOk;
    forall e | 0 <= e < |table|
      ensures Joined(flushed, buffers)[e] + [] == flushed[e] + buffers[e]
    {
    }
  }

  class BatchState {
    const table: seq<WatchEntry>
    var buffers: seq<seq<Point>>
    var prevCycle: seq<Option<nat>>
    var droppedRecords: nat           // saturates at u32::MAX
    var pointsSinceEmit: nat

    ghost var log: seq<Point>                 // every point that came, in order
    ghost var flushed: seq<seq<Point>>        // the points of past batches, entry by entry
    ghost var charged: seq<nat>               // the charges so far, entry by entry
    ghost var reported: nat                   // the charges of past batches
    ghost var saturated: bool

    /** Past batches and the buffers hold the points that came, in order; past batches and
        the tally hold the charges, unless the tally ever reached its limit. */
    ghost predicate Valid()
      reads this
    {
      && EntriesOk(table, log, flushed, buffers, prevCycle, charged)
      && droppedRecords < U32
      && (!saturated ==> Add(charged) == reported + droppedRecords)
    }

    constructor (table: seq<WatchEntry>)
      requires forall e :: 0 <= e < |table| ==> table[e].period > 0
      ensures Valid() && this.table == table && log == [] && !saturated && reported == 0
    {
      this.table := table;
      buffers := seq(|table|, _ => []);
      prevCycle := seq(|table|, _ => None);
      droppedRecords, pointsSinceEmit := 0, 0;
      log, flushed, charged, reported, saturated := [], seq(|table|, _ => []), seq(|table|, _ => 0), 0, false;
      new;
      AddZeros(|table|);
    }

    /** The body of the loop of ingest: one point is charged for, and kept. */
    method Keep(point: Point)
      requires Valid() && point.entry < |table|
      modifies this
      ensures Valid() && log == old(log) + [point] && flushed == old(flushed) && reported == old(reported)
      ensures pointsSinceEmit == old(pointsSinceEmit) && (saturated ==> old(saturated) || droppedRecords == U32 - 1)
      ensures var e := point.entry;
        var all := old(droppedRecords) + Charge(old(prevCycle)[e], point.cycle, table[e].period);
        droppedRecords == if all < U32 then all else U32 - 1
    {
      hide EntryOk, Charge;
      EntriesGrow(table, log, flushed, buffers, prevCycle, charged, point);
      var e := point.entry;
      var missed := Charge(prevCycle[e], point.cycle, table[e].period);
      ghost var n := missed;
      if droppedRecords + missed >= U32 {
        saturated := true;
        missed := U32 - 1 - droppedRecords;
      }
      droppedRecords := droppedRecords + missed;
      prevCycle := prevCycle[e := Some(point.cycle)];
      buffers := buffers[e := buffers[e] + [point]];
      AddOne(charged, e, n);
      charged := charged[e := charged[e] + n];
      log := log + [point];
    }

    /** flush: the batch carries every buffered point of every entry, and the drops charged
        since the last one. */
    method Flush() returns (batch: Batch)
      requires Valid()
      modifies this
      ensures Valid() && log == old(log) && charged == old(charged) && saturated == old(saturated)
      ensures batch.droppedRecords == old(droppedRecords) && reported == old(reported) + batch.droppedRecords
      ensures droppedRecords == pointsSinceEmit == 0 && Ordered(batch.signals, 0)
      ensures forall e :: 0 <= e < |table| ==>
        flushed[e] == old(flushed)[e] + PointsIn(batch.signals, e) && buffers[e] == []
    {
      hide EntryOk, Series, PointsIn, Ordered, Add;
      SeriesIs(buffers);
      batch := Batch(Series(buffers, 0), droppedRecords);
      FlushedOk(table, log, flushed, buffers, prevCycle, charged);
      flushed := Joined(flushed, buffers);
      buffers := seq(|table|, _ => []);
      reported := reported + droppedRecords;
      droppedRecords, pointsSinceEmit := 0, 0;
    }

    /** ingest; `elapsed` says that the last batch is old enough. */
    method Ingest(samples: Samples, elapsed: bool) returns (batch: Option<Batch>)
      requires Valid()
      modifies this
      ensures Valid() && log == old(log) + Demuxed(table, samples)
      ensures var points := |Demuxed(table, samples)|;
        && batch.Some?
           == (points > 0 && (elapsed || old(pointsSinceEmit) + points >= BATCH_EMIT_MAX_POINTS))
        && pointsSinceEmit == if batch.Some? then 0 else old(pointsSinceEmit) + points
      ensures batch.Some? ==> Ordered(batch.value.signals, 0) && forall e :: 0 <= e < |table| ==> buffers[e] == []
      ensures batch.Some? ==> reported == old(reported) + batch.value.droppedRecords
      ensures batch.None? ==> reported == old(reported) && flushed == old(flushed)
      ensures batch.Some? ==>
        forall e :: 0 <= e < |table| ==> flushed[e] == old(flushed)[e] + PointsIn(batch.value.signals, e)
    {
      hide EntryOk, Demuxed, IsDemuxed;
      var points := Demux(table, samples);
      DemuxedInTable(table, samples);
      if points == [] {
        return None;
      }
      pointsSinceEmit := pointsSinceEmit + |points|;
      for i := 0 to |points|
        invariant Valid() && log == old(log) + points[..i] && flushed == old(flushed) && reported == old(reported)
        invariant pointsSinceEmit == old(pointsSinceEmit) + |points|
      {
        Keep(points[i]);
        assert points[..i] + [points[i]] == points[..i + 1];
      }
      assert points[..|points|] == points;
      batch := None;
      if pointsSinceEmit >= BATCH_EMIT_MAX_POINTS || elapsed {
        var full := Flush();
        batch := Some(full);
      }
    }

    /** Conservation: for each entry, the points delivered in past batches and those still
        buffered, together with the drops charged, are as many as the periods from the first
        point that came to the last one. The batches and the tally report all charges. */
    lemma Conserved(e: nat, indices: seq<nat>, gaps: seq<nat>)
      requires Valid() && e < |table|
      requires InOrder(indices, gaps, table[e].period) && CyclesOf(log, e) == Wrapped(indices)
      ensures Covers(|flushed[e]| + |buffers[e]| + charged[e], indices, table[e].period)
      ensures flushed[e] + buffers[e] == PointsOf(log, e)
      ensures !saturated ==> Add(charged) == reported + droppedRecords
    {
      hide CyclesOf, PointsOf, Charges, InOrder, Covers;
      AsManyAsCycles(log, e);
      GapsAreCharged(indices, gaps, table[e].period);
    }

    /** A whole stream of messages: the batches handed on carry, entry by entry and in order,
        the points that left the buffers, and report the charges that left the tally. */
    method Follow(stream: seq<(Samples, bool)>) returns (batches: seq<Batch>)
      requires Valid()
      modifies this
      ensures Valid() && log == old(log) + AllDemuxed(table, stream)
      ensures forall e :: 0 <= e < |table| ==> flushed[e] == old(flushed)[e] + PointsAcross(batches, e)
      ensures reported == old(reported) + DropsAcross(batches)
    {
      hide EntryOk, Demuxed;
      batches := [];
      for i := 0 to |stream|
        invariant Valid() && log == old(log) + AllDemuxed(table, stream[..i])
        invariant forall e :: 0 <= e < |table| ==> flushed[e] == old(flushed)[e] + PointsAcross(batches, e)
        invariant reported == old(reported) + DropsAcross(batches)
      {
        ghost var before := batches;
        var batch := Ingest(stream[i].0, stream[i].1);
        if batch.Some? {
          batches := batches + [batch.value];
          assert batches[..|before|] == before;
        }
        assert stream[..i + 1][..i] == stream[..i];
      }
      assert stream[..|stream|] == stream;
    }
  }

  function AllDemuxed(table: seq<WatchEntry>, stream: seq<(Samples, bool)>): (points: seq<Point>) {
    if stream == [] then []
    else AllDemuxed(table, stream[..|stream| - 1]) + Demuxed(table, stream[|stream| - 1].0)
  }

  /** The points of an entry that some batches carry. */
  function PointsAcross(batches: seq<Batch>, e: nat): (points: seq<Point>) {
    if batches == [] then []
    else PointsAcross(batches[..|batches| - 1], e) + PointsIn(batches[|batches| - 1].signals, e)
  }

  function DropsAcross(batches: seq<Batch>): (n: nat) {
    if batches == [] then 0 else DropsAcross(batches[..|batches| - 1]) + batches[|batches| - 1].droppedRecords
  }

  lemma DemuxedInTable(table: seq<WatchEntry>, samples: Samples)
    ensures forall p :: p in Demuxed(table, samples) ==> p.entry < |table|
  {
    var group := Group(table, samples.periodCycles, 0);
    RecordsInTable(table, group, samples.firstCycle % U32, samples.periodCycles, samples.count, samples.data);
  }

  lemma {:induction false} RecordsInTable(table: seq<WatchEntry>, group: seq<nat>, cycle: nat, period: nat, count: nat,
                                          data: seq<Byte>)
    requires InTable(table, group)
    ensures forall p :: p in Records(table, group, cycle, period, count, data) ==> p.entry < |table|
    decreases count
  {
    var record := RecordSize(table, group);
    if count > 0 && |data| >= record {
      RecordInTable(table, group, cycle, data);
      RecordsInTable(table, group, (cycle + period) % U32, period, count - 1, data[record..]);
    }
  }

  lemma {:induction false} RecordInTable(table: seq<WatchEntry>, group: seq<nat>, cycle: nat, data: seq<Byte>)
    requires InTable(table, group) && RecordSize(table, group) <= |data|
    ensures forall p :: p in Record(table, group, cycle, data) ==> p.entry < |table|
  {
    if group != [] {
      RecordInTable(table, group[1..], cycle, data[table[group[0]].size..]);
    }
  }

  lemma {:induction false} AddZeros(n: nat)
    ensures Add(seq(n, _ => 0)) == 0
  {
    if n > 0 {
      AddZeros(n - 1);
      assert seq(n, _ => 0)[..n - 1] == seq(n - 1, _ => 0);
    }
  }
}
