/** Lanternfish: a list of spawn timers simulated day by day (part_a), and the same population
    counted through a schedule of spawns per day (part_b). */
module Day06 {
  import opened Common

  /** One fish's timer after a day: 0 restarts at 6, everything else counts down. */
  function Tick(t: int): int { if t == 0 then 6 else t - 1 }

  function Ticked(s: seq<int>): (r: seq<int>)
    ensures |r| == |s|
  {
    if s == [] then [] else Ticked(s[..|s| - 1]) + [Tick(s[|s| - 1])]
  }

  /** `n` newborn fish, each with timer 8. */
  function Eights(n: nat): (r: seq<int>)
    ensures |r| == n
  {
    if n == 0 then [] else Eights(n - 1) + [8]
  }

  /** The list after one day of part_a: every old fish ticks, and one 8 is appended per
      timer that was 0 at the start of the day. */
  function Day(s: seq<int>): seq<int> {
    Ticked(s) + Eights(multiset(s)[0])
  }

  function Simulate(s: seq<int>, days: nat): seq<int> {
    if days == 0 then s else Day(Simulate(s, days - 1))
  }

  ghost predicate InRange(s: seq<int>) {
    forall i :: 0 <= i < |s| ==> 0 <= s[i] <= 8
  }

  lemma {:induction false} TickedAt(s: seq<int>, i: nat)
    requires i < |s|
    ensures Ticked(s)[i] == Tick(s[i])
  {
    if i < |s| - 1 {
      TickedAt(s[..|s| - 1], i);
    }
  }

  lemma {:induction false} EightsAt(n: nat, i: nat)
    requires i < n
    ensures Eights(n)[i] == 8
  {
    if i < n - 1 {
      EightsAt(n - 1, i);
    }
  }

  /** The list grows by the number of zero timers at the start of the day. */
  lemma DayLength(s: seq<int>)
    ensures |Day(s)| == |s| + multiset(s)[0]
  {
  }

  /** Timers that start in 0..8 stay in 0..8. */
  lemma TimersStayInRange(s: seq<int>)
    requires InRange(s)
    ensures InRange(Day(s))
  {
    var d := Day(s);
    forall i | 0 <= i < |d| ensures 0 <= d[i] <= 8 {
      if i < |s| {
        TickedAt(s, i);
      } else {
        EightsAt(multiset(s)[0], i - |s|);
      }
    }
  }

  lemma {:induction false} SimulateInRange(s: seq<int>, days: nat)
    requires InRange(s)
    ensures InRange(Simulate(s, days))
  {
    if days > 0 {
      SimulateInRange(s, days - 1);
      TimersStayInRange(Simulate(s, days - 1));
    }
  }

  lemma {:induction false} EightsCounts(n: nat, j: int)
    ensures multiset(Eights(n))[j] == if j == 8 then n else 0
  {
    if n > 0 {
      EightsCounts(n - 1, j);
    }
  }

  lemma {:induction false} TickedCounts(s: seq<int>, j: int)
    requires InRange(s)
    requires 0 <= j <= 8
    ensures multiset(Ticked(s))[j] ==
      if j == 6 then multiset(s)[7] + multiset(s)[0]
      else if j == 8 then 0
      else multiset(s)[j + 1]
  {
    if s != [] {
      var init, x := s[..|s| - 1], s[|s| - 1];
      assert s == init + [x];
      assert multiset(s) == multiset(init) + multiset{x};
      assert multiset(Ticked(s)) == multiset(Ticked(init)) + multiset{Tick(x)};
      assert InRange(init);
      TickedCounts(init, j);
      TickOne(x, j);
    }
  }

  /** What ticking one fish does to the count of timer `j`. */
  lemma TickOne(x: int, j: int)
    requires 0 <= x <= 8 && 0 <= j <= 8
    ensures multiset{Tick(x)}[j] ==
      if j == 6 then multiset{x}[7] + multiset{x}[0]
      else if j == 8 then 0
      else multiset{x}[j + 1]
  {
  }

  /** How many fish hold each timer value the next day. */
  lemma DayCounts(s: seq<int>, j: int)
    requires InRange(s)
    requires 0 <= j <= 8
    ensures multiset(Day(s))[j] ==
      if j == 6 then multiset(s)[7] + multiset(s)[0]
      else if j == 8 then multiset(s)[0]
      else multiset(s)[j + 1]
  {
    TickedCounts(s, j);
    EightsCounts(multiset(s)[0], j);
  }

  /** The fish list after `prefix` has been processed by one day's `enumerate` pass. */
  function Partial(s: seq<int>, idx: nat): seq<int>
    requires idx <= |s|
  {
    Ticked(s[..idx]) + s[idx..] + Eights(multiset(s[..idx])[0])
  }

  lemma PartialStep(s: seq<int>, idx: nat)
    requires idx < |s|
    ensures idx < |Partial(s, idx)| && Partial(s, idx)[idx] == s[idx]
    ensures Partial(s, idx + 1) ==
      if s[idx] == 0 then (Partial(s, idx) + [8])[idx := 6]
      else Partial(s, idx)[idx := s[idx] - 1]
  {
    assert s[..idx + 1] == s[..idx] + [s[idx]];
    assert s[..idx + 1][..idx] == s[..idx];
    assert s[idx..] == [s[idx]] + s[idx + 1..];
    assert |Ticked(s[..idx])| == idx;
  }

  lemma PartialAll(s: seq<int>)
    ensures Partial(s, |s|) == Day(s)
  {
    assert s[..|s|] == s;
  }

  /** One day of part_a: the list is updated in place, and fish appended during the pass
      are enumerated but skipped. */
  method DayPass(s: seq<int>) returns (fish: seq<int>)
    ensures fish == Day(s)
  {
    fish := s;
    var maxIdx := |fish|;
    var idx := 0;
    while idx < |fish|
      invariant maxIdx == |s| && 0 <= idx <= |fish|
      invariant fish == if idx <= maxIdx then Partial(s, idx) else Day(s)
      decreases maxIdx - (if idx < maxIdx then idx else maxIdx), |fish| - idx
    {
      if idx < maxIdx {
        fish := UpdateFish(fish, idx, s);
      } else if idx == maxIdx {
        PartialAll(s);
      }
      idx := idx + 1;
    }
    if idx == maxIdx {
      PartialAll(s);
    }
  }

  /** The body of the pass for a fish that was there at the start of the day: a timer at 0
      is reset to 6 and an 8 is appended, any other timer counts down. */
  method UpdateFish(fish: seq<int>, idx: nat, ghost s: seq<int>) returns (fish': seq<int>)
    requires idx < |s| && fish == Partial(s, idx)
    ensures fish' == Partial(s, idx + 1)
  {
    PartialStep(s, idx);
    if fish[idx] == 0 {
      fish' := fish + [8];
      fish' := fish'[idx := 6];
    } else {
      fish' := fish[idx := fish[idx] - 1];
    }
  }

  /** part_a: the list after `days` passes. */
  method PartA(timers: seq<int>, days: nat) returns (fish: seq<int>)
    ensures fish == Simulate(timers, days)
    ensures InRange(timers) ==> InRange(fish)
  {
    fish := timers;
    var d := 0;
    while d < days
      invariant 0 <= d <= days
      invariant fish == Simulate(timers, d)
    {
      fish := DayPass(fish);
      d := d + 1;
    }
    if InRange(timers) {
      SimulateInRange(timers, days);
    }
  }

  /** The `try` block for one day of part_b: the fish spawning on `day` spawn again on
      `day + 7` and their children first spawn on `day + 9`. An `IndexError` on either
      index ends the block, so the `+ 7` update survives when only `day + 9` is past the end. */
  function Respawn(sched: seq<int>, day: nat): (r: seq<int>)
    requires day < |sched|
    ensures |r| == |sched|
    ensures r[..day + 1] == sched[..day + 1]
  {
    if day + 7 >= |sched| then sched
    else
      var once := sched[day + 7 := sched[day + 7] + sched[day]];
      if day + 9 >= |sched| then once else once[day + 9 := once[day + 9] + sched[day]]
  }

  /** The `try` block of part_b's loop, updating the schedule in place. */
  method RespawnDay(sched: seq<int>, day: nat) returns (sched': seq<int>)
    requires day < |sched|
    ensures sched' == Respawn(sched, day)
  {
    sched' := sched;
    if day + 7 < |sched| {
      sched' := sched'[day + 7 := sched'[day + 7] + sched'[day]];
      if day + 9 < |sched| {
        sched' := sched'[day + 9 := sched'[day + 9] + sched'[day]];
      }
    }
  }

  /** The key invariant of part_b: on day `day`, the entries `day .. day + 8` of the schedule
      hold how many fish of part_a's list have timers `0 .. 8`, and later entries are 0. */
  ghost predicate Tracks(sched: seq<int>, day: nat, s: seq<int>) {
    && (forall j :: 0 <= j <= 8 && day + j < |sched| ==> sched[day + j] == multiset(s)[j])
    && (forall i :: day + 9 <= i < |sched| ==> sched[i] == 0)
  }

  lemma RespawnTracks(sched: seq<int>, day: nat, s: seq<int>)
    requires day < |sched| && InRange(s) && Tracks(sched, day, s)
    ensures Tracks(Respawn(sched, day), day + 1, Day(s))
  {
    var r := Respawn(sched, day);
    forall j | 0 <= j <= 8 && day + 1 + j < |r|
      ensures r[day + 1 + j] == multiset(Day(s))[j]
    {
      DayCounts(s, j);
      assert r[day + 1 + j] == sched[day + 1 + j] + if j == 6 || j == 8 then sched[day] else 0;
    }
    forall i | day + 10 <= i < |r|
      ensures r[i] == 0
    {
      assert r[i] == sched[i];
    }
  }

  /** One day of part_b keeps the schedule in step with part_a's list, whose length grows
      by the fish spawning that day. */
  lemma TracksDay(sched: seq<int>, day: nat, s: seq<int>)
    requires day < |sched| && InRange(s) && Tracks(sched, day, s)
    ensures Tracks(Respawn(sched, day), day + 1, Day(s)) && InRange(Day(s))
    ensures |Day(s)| == |s| + sched[day]
  {
    RespawnTracks(sched, day, s);
    TimersStayInRange(s);
    assert sched[day + 0] == multiset(s)[0];
  }

  /** The total after day `day` adds the fish spawning that day; the update leaves the
      days up to `day` alone. */
  lemma RespawnSum(sched: seq<int>, day: nat)
    requires day < |sched|
    ensures Sum(Respawn(sched, day)[..day + 1]) == Sum(sched[..day]) + sched[day]
  {
    assert Respawn(sched, day)[..day + 1] == sched[..day + 1] == sched[..day] + [sched[day]];
    SumAppend(sched[..day], [sched[day]]);
    assert Sum([sched[day]]) == sched[day];
  }

  lemma InRangeTracks(sched: seq<int>, s: seq<int>)
    requires InRange(s)
    requires forall i :: 0 <= i < |sched| ==> sched[i] == multiset(s)[i] + multiset(s)[i - |sched|]
    ensures Tracks(sched, 0, s)
  {
    forall i | i < 0 || i > 8 ensures multiset(s)[i] == 0 {
      assert i !in s;
    }
    forall i | 0 <= i < |sched| ensures sched[i] == if i <= 8 then multiset(s)[i] else 0 {
      assert multiset(s)[i - |sched|] == 0;
    }
  }

  /** part_b's first loop; a negative timer indexes from the end, as Python's list does. */
  method CountTimers(timers: seq<int>, days: nat) returns (spawn: seq<int>)
    requires forall k :: 0 <= k < |timers| ==> -(days as int) <= timers[k] < days
    ensures |spawn| == days
    ensures forall i :: 0 <= i < days ==>
      spawn[i] == multiset(timers)[i] + multiset(timers)[i - days]
  {
    spawn := seq(days, _ => 0);
    for k := 0 to |timers|
      invariant |spawn| == days
      invariant forall i :: 0 <= i < days ==>
        spawn[i] == multiset(timers[..k])[i] + multiset(timers[..k])[i - days]
    {
      assert timers[..k + 1] == timers[..k] + [timers[k]];
      var at := if timers[k] < 0 then timers[k] + days else timers[k];
      spawn := spawn[at := spawn[at] + 1];
    }
    assert timers[..|timers|] == timers;
  }

  /** The schedule part_b's first loop builds: entry `i` counts the timers equal to `i`, and
      those equal to `i - days`, which a negative index reaches from the end. */
  ghost function InitialSchedule(timers: seq<int>, days: nat): (sched: seq<int>)
    ensures |sched| == days
  {
    seq(days, i => multiset(timers)[i] + multiset(timers)[i - days])
  }

  /** The schedule after the `try` blocks of the first `n` days. */
  ghost function Respawned(sched: seq<int>, n: nat): (r: seq<int>)
    requires n <= |sched|
    ensures |r| == |sched|
  {
    if n == 0 then sched else Respawn(Respawned(sched, n - 1), n - 1)
  }

  /** A day on which no fish spawns leaves the schedule as it is. */
  lemma QuietDays(sched: seq<int>, n: nat, m: nat)
    requires n <= m <= |sched|
    requires forall d :: n <= d < m ==> Respawned(sched, n)[d] == 0
    ensures Respawned(sched, m) == Respawned(sched, n)
    decreases m - n
  {
    if n < m {
      var r := Respawned(sched, n);
      assert Respawned(sched, n + 1) == Respawn(r, n) == r;
      QuietDays(sched, n + 1, m);
    }
  }

  /** A timer outside 0..8 is counted too: one fish at 9 over 17 days spawns on day 9, whose
      `+ 7` update lands on day 16 while its `+ 9` update is past the end; 3 fish in all. */
  lemma NineTimer()
    ensures |[9]| + Sum(Respawned(InitialSchedule([9], 17), 17)) == 3
  {
    var init := InitialSchedule([9], 17);
    forall i | 0 <= i < 17 ensures init[i] == if i == 9 then 1 else 0 {
      assert multiset([9])[i - 17] == 0;
    }
    QuietDays(init, 0, 9);
    var after := init[16 := 1];
    assert Respawned(init, 10) == Respawn(init, 9) == after;
    QuietDays(init, 10, 16);
    assert Respawned(init, 17) == Respawn(after, 16) == after;
    NineTimerSum(after);
  }

  lemma NineTimerSum(s: seq<int>)
    requires |s| == 17 && forall i :: 0 <= i < 17 ==> s[i] == if i == 9 || i == 16 then 1 else 0
    ensures Sum(s) == 2
  {
    var t := s[10..];
    assert s == s[..10] + t;
    SumAppend(s[..10], t);
    assert s[..10] == s[..9] + [1];
    SumAppend(s[..9], [1]);
    ZeroSum(s[..9]);
    assert t == t[..6] + [1];
    SumAppend(t[..6], [1]);
    ZeroSum(t[..6]);
  }

  lemma {:induction false} ZeroSum(s: seq<int>)
    requires forall i :: 0 <= i < |s| ==> s[i] == 0
    ensures Sum(s) == 0
  {
    if s != [] {
      ZeroSum(s[1..]);
    }
  }

  /** part_b: `schedule[d]` counts the fish that spawn on day `d`, and every spawn adds one
      fish. For timers in 0..8 the answer is the length of part_a's list after as many days. */
  method PartB(timers: seq<int>, days: nat) returns (total: int, ghost schedule: seq<int>)
    requires forall k :: 0 <= k < |timers| ==> -(days as int) <= timers[k] < days
    ensures schedule == Respawned(InitialSchedule(timers, days), days)
    ensures total == |timers| + Sum(schedule)
    ensures InRange(timers) ==> total == |Simulate(timers, days)|
  {
    var spawn := CountTimers(timers, days);
    ghost var initial := InitialSchedule(timers, days);
    assert spawn == initial;
    total := |timers|;
    ghost var s := timers;
    ghost var inRange := InRange(timers);
    if inRange {
      InRangeTracks(spawn, timers);
    }
    for day := 0 to days
      invariant spawn == Respawned(initial, day)
      invariant total == |timers| + Sum(spawn[..day])
      invariant inRange ==> s == Simulate(timers, day) && InRange(s)
      invariant inRange ==> total == |s|
      invariant inRange ==> Tracks(spawn, day, s)
    {
      ghost var before := spawn;
      RespawnSum(spawn, day);
      total := total + spawn[day];
      spawn := RespawnDay(spawn, day);
      if inRange {
        TracksDay(before, day, s);
        s := Day(s);
      }
    }
    assert spawn[..days] == spawn;
    schedule := spawn;
  }
}
