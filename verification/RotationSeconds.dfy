/** Which seconds the appends to a directory may fall in without an archive ever being lost. */
module RotationSeconds {
  import opened Basics
  import opened Rotation
  import opened RotationSizes

  /** When a program appends and when it closes its files: the stamp of each append, and nothing for a Close. */
  type Timing = seq<Option<string>>

  predicate Matches(events: seq<Event>, timing: Timing) {
    && |events| == |timing|
    && forall i :: 0 <= i < |events| ==>
         match timing[i]
         case None => events[i].Close?
         case Some(stamp) => events[i].Append? && events[i].stamp == stamp
  }

  /** But for the first append, no two share a second. */
  predicate ApartButFirst(timing: Timing) {
    forall h, i, j :: 0 <= h < i < j < |timing| && timing[h].Some? && timing[i].Some? ==> timing[i] != timing[j]
  }

  ghost predicate NeverLoses(c: Config, timing: Timing) {
    forall events: seq<Event>, name: string :: Matches(events, timing) ==> AllThere(c, events, name)
  }

  predicate AllThere(c: Config, events: seq<Event>, name: string) {
    var w := Run(c, events);
    Log(c, w.state.disk, name, Trail(w, name)) == Sent(c, events, name)
  }

  // ---------- Where archives come from ----------

  /** An archive changes only when its file is rotated at its second; then it holds what the file did. */
  lemma {:induction false} StepReads(c: Config, s: State, e: Event, name: string, stamp: string)
    requires Unpacks(c) && AtEnd(s)
    ensures Read(c, Step(c, s, e).disk, name, stamp)
         == if e.Append? && Rotates(c, s, e) && c.resolve(e.session, e.dates.check) == name && e.stamp == stamp
            then Current(s.disk, name) else Read(c, s.disk, name, stamp)
  {
    if e.Append? {
      var s1 := Opened(c, s, e.session, c.resolve(e.session, e.dates.open));
      OpenedKeeps(c, s, e.session, c.resolve(e.session, e.dates.open), name);
      if Rotates(c, s, e) {
        var check := c.resolve(e.session, e.dates.check);
        RotatedReads(c, s1, check, e.stamp, name, stamp);
        OpenedKeeps(c, Rotated(c, s1, check, e.stamp), e.session, c.resolve(e.session, e.dates.reopen), name);
      }
      PreparedAtEnd(c, s, e);
      WroteKeeps(c, Prepared(c, s, e), Target(c, s, e), e.entry, name);
      StepDisk(c, s, e);
    }
  }

  lemma {:induction false} RunAtEnd(c: Config, events: seq<Event>)
    ensures AtEnd(Run(c, events).state)
  {
    if events != [] {
      RunAtEnd(c, events[..|events| - 1]);
      StepAtEnd(c, Run(c, events[..|events| - 1]).state, events[|events| - 1]);
    }
  }

  lemma {:induction false} OnlyCloses(c: Config, events: seq<Event>)
    requires forall i :: 0 <= i < |events| ==> events[i].Close?
    ensures Run(c, events).state.disk == map[]
  {
    if events != [] {
      OnlyCloses(c, events[..|events| - 1]);
    }
  }

  /** The pairs of appends of which the second has this stamp. */
  predicate Second(timing: Timing, stamp: string) {
    exists h, i :: 0 <= h < i < |timing| && timing[h].Some? && timing[i] == Some(stamp)
  }

  /** Something in an archive was appended before the append that rotated it there. */
  lemma {:induction false} ArchiveSource(c: Config, events: seq<Event>, timing: Timing, name: string, stamp: string)
    requires Unpacks(c) && Matches(events, timing) && Read(c, Run(c, events).state.disk, name, stamp) != []
    ensures Second(timing, stamp)
  {
    if events != [] {
      var n := |events| - 1;
      var s, e := Run(c, events[..n]).state, events[n];
      RunAtEnd(c, events[..n]);
      StepReads(c, s, e, name, stamp);
      if Read(c, s.disk, name, stamp) != [] {
        ArchiveSource(c, events[..n], timing[..n], name, stamp);
        var h, i :| 0 <= h < i < n && timing[..n][h].Some? && timing[..n][i] == Some(stamp);
        assert timing[h].Some? && timing[i] == Some(stamp);
      } else {
        if forall h :: 0 <= h < n ==> events[..n][h].Close? {
          OnlyCloses(c, events[..n]);
        }
        var h :| 0 <= h < n && events[h].Append?;
        assert timing[h].Some? && timing[n] == Some(stamp);
      }
    }
  }

  lemma {:induction false} ApartKeeps(c: Config, events: seq<Event>, timing: Timing, name: string)
    requires Unpacks(c) && Matches(events, timing) && ApartButFirst(timing)
    ensures NeverOverwrites(c, events, name)
  {
    if events != [] {
      var n := |events| - 1;
      ApartKeeps(c, events[..n], timing[..n], name);
      if Overwrites(c, Run(c, events[..n]).state, events[n], name) {
        ArchiveSource(c, events[..n], timing[..n], name, events[n].stamp);
      }
    }
  }

  // ---------- A run that loses ----------

  function Entry(c: Config, stamp: string): Event {
    Append("", Dates("", "", "", ""), stamp, Bytes(c.limit))
  }

  /** All appends are to one file, of as much as the limit. */
  function Full(c: Config, timing: Timing): (events: seq<Event>)
    ensures |events| == |timing|
  {
    if timing == [] then []
    else
      Full(c, timing[..|timing| - 1])
        + [match timing[|timing| - 1] case None => Close case Some(stamp) => Entry(c, stamp)]
  }

  predicate Appends(timing: Timing) {
    exists h :: 0 <= h < |timing| && timing[h].Some?
  }

  lemma {:induction false} FullMatches(c: Config, timing: Timing)
    ensures Matches(Full(c, timing), timing)
    ensures forall i :: 0 <= i < |timing| ==> Steady(c, Full(c, timing)[i])
  {
    if timing != [] {
      FullMatches(c, timing[..|timing| - 1]);
    }
  }

  /** An append of as much as the limit to the file: it rotates exactly if there is anything in it, and fills it. */
  lemma {:induction false} FullStep(c: Config, s: State, stamp: string, name: string)
    requires c.limit > 0 && AtEnd(s) && SizesKnown(s) && name == c.resolve("", "")
    requires |Current(s.disk, name)| <= c.limit
    ensures Rotates(c, s, Entry(c, stamp)) <==> Current(s.disk, name) != []
    ensures |Current(Step(c, s, Entry(c, stamp)).disk, name)| == c.limit
  {
    var e := Entry(c, stamp);
    OpenedKeeps(c, s, "", name, name);
    OpenedSizes(c, s, "", name);
    PreparedAtEnd(c, s, e);
    if Rotates(c, s, e) {
      var s2 := Rotated(c, Opened(c, s, "", name), name, stamp);
      assert Opened(c, s2, "", name) == s2;
    }
    WroteKeeps(c, Prepared(c, s, e), name, e.entry, name);
    StepDisk(c, s, e);
  }

  /** From the first append on the file is full, and from the second on the archives are. */
  predicate FullState(c: Config, timing: Timing, s: State, name: string) {
    && AtEnd(s) && SizesKnown(s)
    && |Current(s.disk, name)| == if Appends(timing) then c.limit else 0
  }

  lemma {:induction false} FullRun(c: Config, timing: Timing, name: string)
    requires c.limit > 0 && name == c.resolve("", "")
    ensures FullState(c, timing, Run(c, Full(c, timing)).state, name)
  {
    FullMatches(c, timing);
    SizeBound(c, Full(c, timing), name);
    if timing != [] {
      var front, s := timing[..|timing| - 1], Run(c, Full(c, timing[..|timing| - 1])).state;
      FullRun(c, front, name);
      assert Full(c, timing)[..|timing| - 1] == Full(c, front);
      if timing[|timing| - 1].Some? {
        FullStep(c, s, timing[|timing| - 1].value, name);
      } else {
        assert forall h :: 0 <= h < |front| ==> timing[h] == front[h];
      }
    }
  }

  lemma {:induction false} FullArchives(c: Config, timing: Timing, name: string, h: nat, i: nat)
    requires Unpacks(c) && c.limit > 0 && name == c.resolve("", "") && h < i < |timing|
    requires timing[h].Some? && timing[i].Some?
    ensures Read(c, Run(c, Full(c, timing)).state.disk, name, timing[i].value) != []
  {
    var n := |timing| - 1;
    var front := timing[..n];
    var s := Run(c, Full(c, front)).state;
    assert Full(c, timing)[..n] == Full(c, front);
    FullRun(c, front, name);
    assert front[h] == timing[h];
    if timing[n].Some? {
      FullStep(c, s, timing[n].value, name);
    }
    StepReads(c, s, Full(c, timing)[n], name, timing[i].value);
    if i < n {
      FullArchives(c, front, name, h, i);
    }
  }

  /** The second of two appends within a second, after another one, overwrites what the first archived. */
  lemma {:induction false} FullLoses(c: Config, timing: Timing, name: string, h: nat, i: nat, j: nat)
    requires Unpacks(c) && c.limit > 0 && name == c.resolve("", "") && h < i < j < |timing|
    requires timing[h].Some? && timing[i].Some? && timing[i] == timing[j]
    ensures !NeverOverwrites(c, Full(c, timing), name)
  {
    var n := |timing| - 1;
    var front := timing[..n];
    assert Full(c, timing)[..n] == Full(c, front);
    if j < n {
      FullLoses(c, front, name, h, i, j);
    } else {
      var s := Run(c, Full(c, front)).state;
      assert front[h] == timing[h];
      FullRun(c, front, name);
      FullStep(c, s, timing[j].value, name);
      FullArchives(c, front, name, h, i);
      assert Overwrites(c, s, Full(c, timing)[n], name);
    }
  }

  lemma {:induction false} ApartIsThere(c: Config, events: seq<Event>, timing: Timing, name: string)
    requires Unpacks(c) && Matches(events, timing) && ApartButFirst(timing)
    ensures AllThere(c, events, name)
  {
    ApartKeeps(c, events, timing, name);
    LosslessExactly(c, events, name);
  }

  lemma {:induction false} SharedIsNot(c: Config, timing: Timing) returns (events: seq<Event>, name: string)
    requires Unpacks(c) && c.limit > 0 && !ApartButFirst(timing)
    ensures Matches(events, timing) && !AllThere(c, events, name)
  {
    var h, i, j :| 0 <= h < i < j < |timing| && timing[h].Some? && timing[i].Some? && timing[i] == timing[j];
    events, name := Full(c, timing), c.resolve("", "");
    FullMatches(c, timing);
    FullLoses(c, timing, name, h, i, j);
    LosslessExactly(c, events, name);
  }

  /** Main result: whatever is appended to which files, nothing is ever lost, exactly when no two appends but the first
      share a second. */
  lemma {:induction false} LosslessTimings(c: Config, timing: Timing)
    requires Unpacks(c) && c.limit > 0
    ensures NeverLoses(c, timing) <==> ApartButFirst(timing)
  {
    if ApartButFirst(timing) {
      forall events: seq<Event>, name: string | Matches(events, timing) ensures AllThere(c, events, name) {
        ApartIsThere(c, events, timing, name);
      }
    } else {
      var events, name := SharedIsNot(c, timing);
    }
  }
}
