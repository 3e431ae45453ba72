/** What the operations of the rotating writer leave behind, file by file and handle by handle. */
module RotationMeaning {
  import opened Rotation
  import opened RotationSizes

  /** `getFile`: an open file stays open with all others; a new one takes the place of those of the session's other
      names, and appends to what the file holds. */
  lemma {:induction false} OpenedExactly(c: Config, s: State, session: string, name: string, n: string)
    ensures
      var t := Opened(c, s, session, name);
      && (n in t.files <==> n == name || (n in s.files && (name in s.files || !c.mentions(n, session))))
      && (n in t.files && n in s.files ==> t.files[n] == s.files[n])
      && (name !in s.files ==> t.files[name].append && t.files[name].written == |Current(s.disk, name)|)
  {
  }

  /** It creates a file that is missing, empty, and changes no other. */
  lemma {:induction false} OpenedDisk(c: Config, s: State, session: string, name: string, p: Path)
    ensures
      var d := Opened(c, s, session, name).disk;
      && (p in d <==> p in s.disk || (p == Live(name) && name !in s.files))
      && (p in d ==> d[p] == if p in s.disk then s.disk[p] else [])
  {
  }

  /** `rotate`: the live file is empty, its handle stands at the start, and what it held is the archive of the stamp,
      plain or packed, but never both; every other file and handle is as it was. */
  lemma {:induction false} RotatedExactly(c: Config, s: State, name: string, stamp: string, p: Path)
    ensures
      var d := Rotated(c, s, name, stamp).disk;
      var archive, packed := Archive(name, stamp), Zipped(name, stamp);
      && Live(name) in d && d[Live(name)] == []
      && (!c.compress ==> archive in d && d[archive] == Current(s.disk, name))
      && (c.compress ==> archive !in d && packed in d && d[packed] == c.pack(Current(s.disk, name)))
      && (p !in {Live(name), archive} && !(c.compress && p == packed) ==>
            (p in d <==> p in s.disk) && (p in d ==> d[p] == s.disk[p]))
  {
  }

  lemma {:induction false} RotatedHandles(c: Config, s: State, name: string, stamp: string, n: string)
    ensures
      var files := Rotated(c, s, name, stamp).files;
      && name in files && files[name] == Handle(false, 0, 0)
      && (n != name ==> (n in files <==> n in s.files) && (n in files ==> files[n] == s.files[n]))
  {
  }

  /** `Close`: no file is open, and none has changed. */
  lemma {:induction false} ClosedExactly(c: Config, s: State)
    ensures Step(c, s, Close).files == map[] && Step(c, s, Close).disk == s.disk
  {
  }

  lemma {:induction false} ArchiveStays(c: Config, s: State, name: string, stamp: string, p: Path)
    requires !p.Live?
    ensures
      var d := Rotated(c, s, name, stamp).disk;
      p !in {Archive(name, stamp), Zipped(name, stamp)} ==> (p in d <==> p in s.disk) && (p in d ==> d[p] == s.disk[p])
  {
    RotatedExactly(c, s, name, stamp, p);
  }

  predicate SameFile(d: Disk, d': Disk, p: Path) {
    (p in d' <==> p in d) && (p in d ==> d'[p] == d[p])
  }

  /** The event is no append that could rotate the archive's file at the archive's stamp. */
  predicate Spares(c: Config, e: Event, p: Path)
    requires !p.Live?
  {
    e.Append? ==> e.stamp != p.stamp || c.resolve(e.session, e.dates.check) != p.name
  }

  lemma {:induction false} StepKeeps(c: Config, s: State, e: Event, p: Path)
    requires !p.Live? && Spares(c, e, p)
    ensures SameFile(s.disk, Step(c, s, e).disk, p)
  {
    if e.Append? {
      var s1 := Opened(c, s, e.session, c.resolve(e.session, e.dates.open));
      OpenedDisk(c, s, e.session, c.resolve(e.session, e.dates.open), p);
      if Rotates(c, s, e) {
        var check := c.resolve(e.session, e.dates.check);
        ArchiveStays(c, s1, check, e.stamp, p);
        OpenedDisk(c, Rotated(c, s1, check, e.stamp), e.session, c.resolve(e.session, e.dates.reopen), p);
      }
      StepDisk(c, s, e);
    }
  }

  lemma {:induction false} RunMore(c: Config, before: seq<Event>, e: Event, all: seq<Event>)
    requires all == before + [e]
    ensures Run(c, all).state == Step(c, Run(c, before).state, e)
  {
    assert all[..|all| - 1] == before;
  }

  lemma {:induction false} Regroup(events: seq<Event>, more: seq<Event>)
    requires more != []
    ensures events + more == (events + more[..|more| - 1]) + [more[|more| - 1]]
  {
  }

  /** Main result: over every run, an archive changes only by a rotation of its own file in its own second. */
  lemma {:induction false} ArchivePersists(c: Config, events: seq<Event>, more: seq<Event>, p: Path)
    requires !p.Live? && forall i :: 0 <= i < |more| ==> Spares(c, more[i], p)
    ensures SameFile(Run(c, events).state.disk, Run(c, events + more).state.disk, p)
  {
    if more == [] {
      assert events + more == events;
    } else {
      var n := |more| - 1;
      ArchivePersists(c, events, more[..n], p);
      Regroup(events, more);
      RunMore(c, events + more[..n], more[n], events + more);
      StepKeeps(c, Run(c, events + more[..n]).state, more[n], p);
    }
  }

  /** An append rotates exactly if there is a limit and the file of the second reading is open by then, because it was
      just opened, or was before and has not been closed for it, and is believed to outgrow the limit with the entry. */
  lemma {:induction false} RotatesExactly(c: Config, s: State, e: Event)
    requires e.Append?
    ensures
      var name, check := c.resolve(e.session, e.dates.open), c.resolve(e.session, e.dates.check);
      Rotates(c, s, e)
      <==> c.limit > 0
           && if check in s.files then
                (check == name || name in s.files || !c.mentions(check, e.session))
                && s.files[check].written + |e.entry| > c.limit
              else check == name && |Current(s.disk, name)| + |e.entry| > c.limit
  {
  }

  // ---------- One append ----------

  lemma {:induction false} SteadyPrepared(c: Config, s: State, e: Event, name: string)
    requires AtEnd(s) && SizesKnown(s) && e.Append? && AllOneFile(c, e.session, e.dates)
    requires name == c.resolve(e.session, e.dates.open)
    ensures Target(c, s, e) == name
    ensures Rotates(c, s, e) <==> 0 < c.limit < |Current(s.disk, name)| + |e.entry|
    ensures
      var t := Opened(c, s, e.session, name);
      Prepared(c, s, e) == if Rotates(c, s, e) then Rotated(c, t, name, e.stamp) else t
  {
    var t := Opened(c, s, e.session, name);
    OpenedSizes(c, s, e.session, name);
    OpenedKeeps(c, s, e.session, name, name);
    if Rotates(c, s, e) {
      var r := Rotated(c, t, name, e.stamp);
      assert Opened(c, r, e.session, name) == r;
    }
  }

  /** Main result: an append on one date, with all sizes known, adds its entry to the file if that stays within the
      limit or there is none; if not, what the file held becomes the archive of the stamp, and the entry all that the
      file holds. */
  lemma {:induction false} AppendExactly(c: Config, s: State, e: Event)
    requires Unpacks(c) && AtEnd(s) && SizesKnown(s) && e.Append? && AllOneFile(c, e.session, e.dates)
    ensures
      var name := c.resolve(e.session, e.dates.open);
      var was, d := Current(s.disk, name), Step(c, s, e).disk;
      if c.limit == 0 || |was| + |e.entry| <= c.limit then Current(d, name) == was + e.entry
      else Current(d, name) == e.entry && Read(c, d, name, e.stamp) == was
  {
    var name := c.resolve(e.session, e.dates.open);
    var t := Opened(c, s, e.session, name);
    SteadyPrepared(c, s, e, name);
    OpenedKeeps(c, s, e.session, name, name);
    PreparedAtEnd(c, s, e);
    WroteKeeps(c, Prepared(c, s, e), name, e.entry, name);
    if Rotates(c, s, e) {
      RotatedReads(c, t, name, e.stamp, name, e.stamp);
      assert [] + e.entry == e.entry;
    }
    StepDisk(c, s, e);
  }
}
