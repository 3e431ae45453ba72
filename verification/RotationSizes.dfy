/** How large a memory file can grow: what the writer believes its size to be, and when that bounds it. */
module RotationSizes {
  import opened Rotation

  /** The writer knows the size of every open file. */
  predicate SizesKnown(s: State) {
    forall n :: n in s.files ==> s.files[n].written == |Current(s.disk, n)|
  }

  lemma {:induction false} OpenedSizes(c: Config, s: State, session: string, name: string)
    requires SizesKnown(s)
    ensures SizesKnown(Opened(c, s, session, name))
  {
    OpenedKeepsSizes(c, s, session, name);
  }

  lemma {:induction false} OpenedKeepsSizes(c: Config, s: State, session: string, file: string)
    ensures forall n :: Current(Opened(c, s, session, file).disk, n) == Current(s.disk, n)
  {
    forall n ensures Current(Opened(c, s, session, file).disk, n) == Current(s.disk, n) {
      OpenedKeeps(c, s, session, file, n);
    }
  }

  lemma {:induction false} PreparedSizes(c: Config, s: State, e: Event)
    requires e.Append? && SizesKnown(s)
    ensures SizesKnown(Prepared(c, s, e))
  {
    var s1 := Opened(c, s, e.session, c.resolve(e.session, e.dates.open));
    OpenedSizes(c, s, e.session, c.resolve(e.session, e.dates.open));
    if Rotates(c, s, e) {
      var s2 := Rotated(c, s1, c.resolve(e.session, e.dates.check), e.stamp);
      forall n | n in s2.files ensures s2.files[n].written == |Current(s2.disk, n)| {
        assert n != c.resolve(e.session, e.dates.check) ==> Current(s2.disk, n) == Current(s1.disk, n);
      }
      OpenedSizes(c, s2, e.session, c.resolve(e.session, e.dates.reopen));
    }
  }

  /** The writer still knows the sizes after an append exactly when the entry was counted for the file it went
      to: when midnight did not pass in between, or the entry was empty. */
  lemma {:induction false} SizesKnownExactly(c: Config, s: State, e: Event)
    requires AtEnd(s) && SizesKnown(s) && e.Append? && c.limit > 0
    ensures SizesKnown(Step(c, s, e)) <==> c.resolve(e.session, e.dates.count) == Target(c, s, e) || e.entry == []
  {
    PreparedSizes(c, s, e);
    PreparedAtEnd(c, s, e);
    var s1, file, count := Prepared(c, s, e), Target(c, s, e), c.resolve(e.session, e.dates.count);
    forall n | n in Step(c, s, e).files ensures n in s1.files && SizeOff(Step(c, s, e), n) == SizeOff(s1, n)
        + (if n == count then |e.entry| else 0) - (if n == file then |e.entry| else 0)
    {
      SizeStep(c, s1, file, count, e.entry, n);
    }
    assert SizeOff(s1, file) == 0 && file in Step(c, s, e).files;
  }

  /** By how much the writer's idea of a file's size is off. */
  function SizeOff(s: State, n: string): int
    requires n in s.files
  {
    s.files[n].written - |Current(s.disk, n)|
  }

  lemma {:induction false} SizeStep(c: Config, s: State, file: string, count: string, entry: Data, n: string)
    requires AtEnd(s) && file in s.files && n in s.files
    ensures
      var t := Counted(Wrote(s, file, entry), count, |entry|);
      n in t.files
      && SizeOff(t, n) == SizeOff(s, n) + (if n == count then |entry| else 0) - (if n == file then |entry| else 0)
  {
    WroteKeeps(c, s, file, entry, n);
  }

  function Max(a: nat, b: nat): nat { if a >= b then a else b }

  /** An append with these readings leaves its file within the limit, or with nothing but the entry; other files
      stay. */
  lemma {:induction false} StepBound(c: Config, s: State, e: Event, name: string)
    requires AtEnd(s) && SizesKnown(s) && e.Append? && c.limit > 0 && OneFile(c, e.session, e.dates)
    ensures
      var size := |Current(Step(c, s, e).disk, name)|;
      if name == c.resolve(e.session, e.dates.open) then size <= Max(c.limit, |e.entry|)
      else size == |Current(s.disk, name)|
  {
    var file := c.resolve(e.session, e.dates.open);
    var s1 := Opened(c, s, e.session, file);
    OpenedKeeps(c, s, e.session, file, name);
    OpenedSizes(c, s, e.session, file);
    PreparedAtEnd(c, s, e);
    if Rotates(c, s, e) {
      var s2 := Rotated(c, s1, file, e.stamp);
      assert Opened(c, s2, e.session, file) == s2;
    }
    WroteKeeps(c, Prepared(c, s, e), file, e.entry, name);
    StepDisk(c, s, e);
  }

  predicate Bounded(c: Config, s: State, e: Event)
    requires e.Append?
  {
    |Current(Step(c, s, e).disk, Target(c, s, e))| <= Max(c.limit, |e.entry|)
  }

  /** Whatever the writer knows, the stamp and the entry are. */
  ghost predicate BoundsSteps(c: Config, session: string, dates: Dates) {
    forall s: State, stamp: string, entry: Data ::
      AtEnd(s) && SizesKnown(s) ==> Bounded(c, s, Append(session, dates, stamp, entry))
  }

  function Bytes(n: nat): (d: Data)
    ensures |d| == n
  {
    seq(n, _ => 0)
  }

  /** The limit is looked up for a file that is not open, so a full one takes another entry. */
  lemma {:induction false} OtherChecked(c: Config, s: State, e: Event)
    requires c.limit > 0 && e.Append? && |e.entry| == 1
    requires c.resolve(e.session, e.dates.check) != c.resolve(e.session, e.dates.open)
    requires s == State(map[Live(c.resolve(e.session, e.dates.open)) := Bytes(c.limit)], map[])
    ensures AtEnd(s) && SizesKnown(s) && !Bounded(c, s, e)
  {
    var file := c.resolve(e.session, e.dates.open);
    var s1 := Opened(c, s, e.session, file);
    assert s1.files.Keys == {file} && !Rotates(c, s, e);
    WroteKeeps(c, s1, file, e.entry, file);
    StepDisk(c, s, e);
  }

  /** A full file is rotated, and the entry goes to another full one. */
  lemma {:induction false} OtherReopened(c: Config, s: State, e: Event)
    requires c.limit > 0 && e.Append? && |e.entry| == 1
    requires c.resolve(e.session, e.dates.check) == c.resolve(e.session, e.dates.open)
    requires c.resolve(e.session, e.dates.reopen) != c.resolve(e.session, e.dates.open)
    requires s == State(map[Live(c.resolve(e.session, e.dates.open)) := Bytes(c.limit),
                            Live(c.resolve(e.session, e.dates.reopen)) := Bytes(c.limit)], map[])
    ensures AtEnd(s) && SizesKnown(s) && !Bounded(c, s, e)
  {
    var file, next := c.resolve(e.session, e.dates.open), c.resolve(e.session, e.dates.reopen);
    var s1 := Opened(c, s, e.session, file);
    assert s1.files[file].written == c.limit && Rotates(c, s, e);
    var s2 := Rotated(c, s1, file, e.stamp);
    assert Current(s2.disk, next) == Bytes(c.limit);
    OpenedKeeps(c, s2, e.session, next, next);
    OpenedAtEnd(c, s, e.session, file);
    PreparedAtEnd(c, s, e);
    WroteKeeps(c, Prepared(c, s, e), next, e.entry, next);
    StepDisk(c, s, e);
  }

  /** Main result: an append keeps the file it writes to within the limit, or within the entry, in whatever state the
      writer knows all sizes, exactly when the readings of the date that open, check and reopen give one file. */
  lemma {:induction false} StepBoundExactly(c: Config, session: string, dates: Dates)
    requires c.limit > 0
    ensures BoundsSteps(c, session, dates) <==> OneFile(c, session, dates)
  {
    var file, check := c.resolve(session, dates.open), c.resolve(session, dates.check);
    if OneFile(c, session, dates) {
      forall s: State, stamp: string, entry: Data | AtEnd(s) && SizesKnown(s)
        ensures Bounded(c, s, Append(session, dates, stamp, entry))
      {
        StepBound(c, s, Append(session, dates, stamp, entry), file);
      }
    } else if check != file {
      var s := State(map[Live(file) := Bytes(c.limit)], map[]);
      OtherChecked(c, s, Append(session, dates, "", Bytes(1)));
    } else {
      var next := c.resolve(session, dates.reopen);
      var s := State(map[Live(file) := Bytes(c.limit), Live(next) := Bytes(c.limit)], map[]);
      OtherReopened(c, s, Append(session, dates, "", Bytes(1)));
    }
  }

  // ---------- Whole runs ----------

  function Largest(events: seq<Event>): nat {
    if events == [] then 0
    else
      var e := events[|events| - 1];
      Max(Largest(events[..|events| - 1]), if e.Append? then |e.entry| else 0)
  }

  /** Main result: in every run of steady appends the writer knows all sizes, and no live file outgrows the limit
      and the largest entry, across rotations, stale handles closed, reopenings and restarts. */
  lemma {:induction false} SizeBound(c: Config, events: seq<Event>, name: string)
    requires c.limit > 0 && forall i :: 0 <= i < |events| ==> Steady(c, events[i])
    ensures
      var s := Run(c, events).state;
      AtEnd(s) && SizesKnown(s) && |Current(s.disk, name)| <= Max(c.limit, Largest(events))
  {
    if events != [] {
      var before, e := events[..|events| - 1], events[|events| - 1];
      forall i | 0 <= i < |before| ensures Steady(c, before[i]) {
        assert before[i] == events[i];
      }
      SizeBound(c, before, name);
      var s := Run(c, before).state;
      StepAtEnd(c, s, e);
      if e.Append? {
        SizesKnownExactly(c, s, e);
        StepBound(c, s, e, name);
      }
    }
  }

  // ---------- For which readings of the date ----------

  /** A run of events that leads to `s`: all the same append, of as much as the limit. */
  predicate Repeated(c: Config, events: seq<Event>, e: Event, s: State) {
    && AtEnd(s) && Run(c, events).state == s && Largest(events) <= c.limit
    && forall i :: 0 <= i < |events| ==> events[i] == e
  }

  lemma {:induction false} Again(c: Config, events: seq<Event>, e: Event, s: State) returns (more: seq<Event>)
    requires Repeated(c, events, e, s) && e.Append? && |e.entry| == c.limit
    ensures Repeated(c, more, e, Step(c, s, e))
  {
    more := events + [e];
    assert more[..|more| - 1] == events;
    StepAtEnd(c, s, e);
  }

  /** What the writer takes the file's size to be when it is opened. */
  function Believed(c: Config, s: State, e: Event): nat
    requires e.Append?
  {
    var name := c.resolve(e.session, e.dates.open);
    Opened(c, s, e.session, name).files[name].written
  }

  lemma {:induction false} Unrotated(c: Config, s: State, e: Event, file: string, count: string)
    requires AtEnd(s) && e.Append? && c.limit > 0 && !Rotates(c, s, e)
    requires file == c.resolve(e.session, e.dates.open) && count == c.resolve(e.session, e.dates.count)
    ensures
      var t := Step(c, s, e);
      && |Current(t.disk, file)| == |Current(s.disk, file)| + |e.entry|
      && (forall n :: n != file ==> Current(t.disk, n) == Current(s.disk, n))
      && t.files.Keys == Opened(c, s, e.session, file).files.Keys
      && t.files[file].written == Believed(c, s, e) + if count == file then |e.entry| else 0
  {
    var s1 := Opened(c, s, e.session, file);
    OpenedAtEnd(c, s, e.session, file);
    forall n ensures Current(Step(c, s, e).disk, n) == Current(s.disk, n) + if n == file then e.entry else [] {
      OpenedKeeps(c, s, e.session, file, n);
      WroteKeeps(c, s1, file, e.entry, n);
      StepDisk(c, s, e);
    }
  }

  const NOTHING: State := State(map[], map[])

  /** Two appends without a rotation take the file past the limit. */
  lemma {:induction false} TwoUnrotated(c: Config, e: Event, s: State) returns (events: seq<Event>)
    requires c.limit > 0 && e.Append? && |e.entry| == c.limit && s == Step(c, NOTHING, e)
    requires !Rotates(c, NOTHING, e) && !Rotates(c, s, e)
    ensures Repeated(c, events, e, Step(c, s, e))
    ensures |Current(Step(c, s, e).disk, c.resolve(e.session, e.dates.open))| == 2 * c.limit
  {
    var file, count := c.resolve(e.session, e.dates.open), c.resolve(e.session, e.dates.count);
    Unrotated(c, NOTHING, e, file, count);
    events := Again(c, [], e, NOTHING);
    Unrotated(c, s, e, file, count);
    events := Again(c, events, e, s);
  }

  /** The limit is looked up for a file that is never open, or what is written is counted for another file. */
  lemma {:induction false} NeverRotates(c: Config, e: Event, s: State)
    requires c.limit > 0 && e.Append? && |e.entry| == c.limit && s == Step(c, NOTHING, e)
    requires
      var file := c.resolve(e.session, e.dates.open);
      c.resolve(e.session, e.dates.check) != file || c.resolve(e.session, e.dates.count) != file
    ensures !Rotates(c, NOTHING, e) && !Rotates(c, s, e)
  {
    var file, count := c.resolve(e.session, e.dates.open), c.resolve(e.session, e.dates.count);
    assert Opened(c, NOTHING, e.session, file).files.Keys == {file} && Believed(c, NOTHING, e) == 0;
    Unrotated(c, NOTHING, e, file, count);
    assert Opened(c, s, e.session, file) == s;
  }

  /** The file is rotated away, but the entry goes to the next one. */
  predicate Strays(c: Config, e: Event) {
    && e.Append? && |e.entry| == c.limit > 0
    && var file := c.resolve(e.session, e.dates.open);
       && c.resolve(e.session, e.dates.check) == file && c.resolve(e.session, e.dates.count) == file
       && c.resolve(e.session, e.dates.reopen) != file
  }

  function File(c: Config, e: Event): string
    requires e.Append?
  {
    c.resolve(e.session, e.dates.open)
  }

  function Next(c: Config, e: Event): string
    requires e.Append?
  {
    c.resolve(e.session, e.dates.reopen)
  }

  /** The file is taken to have as much as the limit, or is not open and empty. */
  predicate FullOrGone(c: Config, e: Event, s: State)
    requires e.Append?
  {
    if File(c, e) in s.files then s.files[File(c, e)].written == c.limit else Current(s.disk, File(c, e)) == []
  }

  /** An append to a full file rotates it and makes the next one grow by the limit. */
  lemma {:induction false} Strayed(c: Config, e: Event, s: State)
    requires AtEnd(s) && Strays(c, e) && File(c, e) in s.files && s.files[File(c, e)].written == c.limit
    ensures |Current(Step(c, s, e).disk, Next(c, e))| == |Current(s.disk, Next(c, e))| + c.limit
    ensures FullOrGone(c, e, Step(c, s, e))
  {
    var file, next := File(c, e), Next(c, e);
    assert Opened(c, s, e.session, file) == s && Rotates(c, s, e);
    var s2 := Rotated(c, s, file, e.stamp);
    RotatedAtEnd(c, s, file, e.stamp);
    forall n ensures Current(Step(c, s, e).disk, n) == Current(s2.disk, n) + if n == next then e.entry else [] {
      OpenedKeeps(c, s2, e.session, next, n);
      PreparedAtEnd(c, s, e);
      WroteKeeps(c, Prepared(c, s, e), next, e.entry, n);
      StepDisk(c, s, e);
    }
  }

  /** An append to an empty file fills it, and leaves the next one as it is. */
  lemma {:induction false} Filled(c: Config, e: Event, s: State)
    requires AtEnd(s) && Strays(c, e) && File(c, e) !in s.files && Current(s.disk, File(c, e)) == []
    ensures Current(Step(c, s, e).disk, Next(c, e)) == Current(s.disk, Next(c, e))
    ensures var t := Step(c, s, e); File(c, e) in t.files && t.files[File(c, e)].written == c.limit
  {
    assert Believed(c, s, e) == 0 && !Rotates(c, s, e);
    Unrotated(c, s, e, File(c, e), File(c, e));
  }

  /** One more append, or two if the file has to be filled first, makes the next one grow by the limit. */
  lemma {:induction false} GrowsOn(c: Config, e: Event, events: seq<Event>, s: State)
    returns (more: seq<Event>, t: State)
    requires Strays(c, e) && Repeated(c, events, e, s) && FullOrGone(c, e, s)
    ensures Repeated(c, more, e, t) && FullOrGone(c, e, t)
    ensures |Current(t.disk, Next(c, e))| == |Current(s.disk, Next(c, e))| + c.limit
  {
    more, t := events, s;
    if File(c, e) !in s.files {
      Filled(c, e, s);
      more := Again(c, more, e, t);
      t := Step(c, t, e);
    }
    Strayed(c, e, t);
    more := Again(c, more, e, t);
    t := Step(c, t, e);
  }

  /** All four readings of the date matter: with any of them for another file some run outgrows the limit. */
  lemma {:induction false} SomeRunOutgrows(c: Config, session: string, dates: Dates)
    returns (events: seq<Event>, name: string)
    requires c.limit > 0 && !AllOneFile(c, session, dates)
    ensures forall i :: 0 <= i < |events| ==>
      events[i].Append? && events[i].session == session && events[i].dates == dates
    ensures |Current(Run(c, events).state.disk, name)| > Max(c.limit, Largest(events))
  {
    var e := Append(session, dates, "", Bytes(c.limit));
    name := File(c, e);
    if c.resolve(session, dates.check) != name || c.resolve(session, dates.count) != name {
      NeverRotates(c, e, Step(c, NOTHING, e));
      events := TwoUnrotated(c, e, Step(c, NOTHING, e));
    } else {
      var t := NOTHING;
      name := Next(c, e);
      events, t := GrowsOn(c, e, [], t);
      events, t := GrowsOn(c, e, events, t);
    }
  }

  /** Runs whose appends all have readings of this kind. */
  predicate Follows(allowed: (string, Dates) -> bool, events: seq<Event>) {
    forall i :: 0 <= i < |events| && events[i].Append? ==> allowed(events[i].session, events[i].dates)
  }

  ghost predicate BoundsRuns(c: Config, allowed: (string, Dates) -> bool) {
    forall events: seq<Event>, name: string :: Follows(allowed, events) ==>
      |Current(Run(c, events).state.disk, name)| <= Max(c.limit, Largest(events))
  }

  /** Main result: whatever sessions and readings of the date a program's appends may have, no file outgrows the limit
      and the largest entry in any of its runs exactly when each append's four readings give one file. */
  lemma {:induction false} SizeBoundExactly(c: Config, allowed: (string, Dates) -> bool)
    requires c.limit > 0
    ensures BoundsRuns(c, allowed)
       <==> forall session: string, dates: Dates :: allowed(session, dates) ==> AllOneFile(c, session, dates)
  {
    if session: string, dates: Dates :| allowed(session, dates) && !AllOneFile(c, session, dates) {
      var events, name := SomeRunOutgrows(c, session, dates);
      assert Follows(allowed, events);
    } else {
      forall events: seq<Event>, name: string | Follows(allowed, events)
        ensures |Current(Run(c, events).state.disk, name)| <= Max(c.limit, Largest(events))
      {
        SizeBound(c, events, name);
      }
    }
  }

  /** Midnight between two readings: the entry goes to yesterday's file, the limit is looked up for today's. */
  lemma {:induction false} MidnightOutgrows(c: Config, x: bv8, today: string, tomorrow: string, stamp: string)
    requires c.limit == 1 && c.resolve("s", today) != c.resolve("s", tomorrow)
    ensures
      var events := [Append("s", Dates(today, today, today, today), stamp, [x]),
                     Append("s", Dates(today, tomorrow, tomorrow, tomorrow), stamp, [x])];
      |Current(Run(c, events).state.disk, c.resolve("s", today))| > Max(c.limit, Largest(events))
  {
    var first := Append("s", Dates(today, today, today, today), stamp, [x]);
    var second := Append("s", Dates(today, tomorrow, tomorrow, tomorrow), stamp, [x]);
    assert [first, second][..1] == [first] && [first][..0] == [];
    var name, next := c.resolve("s", today), c.resolve("s", tomorrow);
    assert Run(c, []) == World(State(map[], map[]), map[]);
    assert Run(c, [first]) == Advance(c, Run(c, []), first);
    FirstByte(c, first, name, x);
    var s1 := Run(c, [first]).state;
    assert Run(c, [first, second]).state == Step(c, s1, second);
    assert Opened(c, s1, "s", name) == s1 && !Rotates(c, s1, second);
    StepDisk(c, s1, second);
    assert Current(Step(c, s1, second).disk, name) == [x] + [x];
    assert Largest([first]) == 1;
  }
}
