/** Size-based rotation of memory files, as a function of the directory and of the open handles. File names are
    modelled by their structure: a live file, or an archive of a live file under a time stamp, plain or gzipped. */
module Rotation {
  type Data = seq<bv8>

  datatype Path = Live(name: string) | Archive(name: string, stamp: string) | Zipped(name: string, stamp: string)

  type Disk = map<Path, Data>

  /** An open file: opened for appending, or at an offset of its own; `written` is what the writer believes its
      size to be. */
  datatype Handle = Handle(append: bool, offset: nat, written: nat)

  datatype State = State(disk: Disk, files: map<string, Handle>)

  /** `limit` 0 means unlimited. `resolve` gives a session's file name on a date, `mentions` whether a file name
      contains the session's prefix, `pack` is gzip. */
  datatype Config = Config(limit: nat, compress: bool,
                           resolve: (string, string) -> string, mentions: (string, string) -> bool,
                           pack: Data -> Data, unpack: Data -> Data)

  ghost predicate Unpacks(c: Config) {
    forall d: Data :: c.unpack(c.pack(d)) == d
  }

  /** One append reads the clock up to four times for the date, and once for the archive's stamp. */
  datatype Dates = Dates(open: string, check: string, reopen: string, count: string)

  datatype Event = Append(session: string, dates: Dates, stamp: string, entry: Data) | Close

  /** What the live file holds. */
  function Current(d: Disk, name: string): Data {
    if Live(name) in d then d[Live(name)] else []
  }

  // ---------- The operations ----------

  /** The limit from the configured megabytes: none means 100, a negative number no limit. */
  function LimitOf(maxSizeMB: int): nat {
    if maxSizeMB > 0 then maxSizeMB * 1024 * 1024
    else if maxSizeMB < 0 then 0
    else 100 * 1024 * 1024
  }

  /** Handles of the session under other names are closed before a new one is opened. */
  function Fresh(c: Config, files: map<string, Handle>, session: string, name: string): map<string, Handle> {
    map n | n in files && !(c.mentions(n, session) && n != name) :: files[n]
  }

  /** `getFile` */
  function Opened(c: Config, s: State, session: string, name: string): (r: State)
    ensures name in r.files
  {
    if name in s.files then s
    else
      var d := if Live(name) in s.disk then s.disk else s.disk[Live(name) := []];
      State(d, Fresh(c, s.files, session, name)[name := Handle(true, 0, |Current(s.disk, name)|)])
  }

  /** The file an archive ends up in. */
  function Stored(c: Config, name: string, stamp: string): Path {
    if c.compress then Zipped(name, stamp) else Archive(name, stamp)
  }

  /** `rotate`: the live file is renamed, over an archive of that name if there is one, perhaps compressed, and
      an empty live file is opened, not for appending. */
  function Rotated(c: Config, s: State, name: string, stamp: string): State {
    var full := Current(s.disk, name);
    var d :=
      if c.compress
      then s.disk[Zipped(name, stamp) := c.pack(full)] - {Archive(name, stamp)}
      else s.disk[Archive(name, stamp) := full];
    State(d[Live(name) := []], s.files[name := Handle(false, 0, 0)])
  }

  /** Writing through a handle: at the end, or at the handle's offset. */
  function Spliced(was: Data, h: Handle, entry: Data): Data {
    if h.append || h.offset >= |was| then was + entry
    else if h.offset + |entry| >= |was| then was[..h.offset] + entry
    else was[..h.offset] + entry + was[h.offset + |entry|..]
  }

  function Wrote(s: State, name: string, entry: Data): State
    requires name in s.files
  {
    var h := s.files[name];
    State(s.disk[Live(name) := Spliced(Current(s.disk, name), h, entry)],
          s.files[name := h.(offset := if h.append then h.offset else h.offset + |entry|)])
  }

  function Counted(s: State, name: string, n: nat): State {
    if name in s.files then s.(files := s.files[name := s.files[name].(written := s.files[name].written + n)]) else s
  }

  /** Whether an append rotates, and which file: the limit is looked up under the second reading. */
  predicate Rotates(c: Config, s: State, e: Event)
    requires e.Append?
  {
    var name := c.resolve(e.session, e.dates.check);
    var s1 := Opened(c, s, e.session, c.resolve(e.session, e.dates.open));
    c.limit > 0 && name in s1.files && s1.files[name].written + |e.entry| > c.limit
  }

  /** The state in which an append writes. */
  function Prepared(c: Config, s: State, e: Event): (r: State)
    requires e.Append?
    ensures Target(c, s, e) in r.files
  {
    var s1 := Opened(c, s, e.session, c.resolve(e.session, e.dates.open));
    if Rotates(c, s, e)
    then Opened(c, Rotated(c, s1, c.resolve(e.session, e.dates.check), e.stamp), e.session,
                c.resolve(e.session, e.dates.reopen))
    else s1
  }

  /** The file an append writes to. */
  function Target(c: Config, s: State, e: Event): string
    requires e.Append?
  {
    c.resolve(e.session, if Rotates(c, s, e) then e.dates.reopen else e.dates.open)
  }

  function Step(c: Config, s: State, e: Event): State {
    match e
    case Close => s.(files := map[])
    case Append(session, dates, stamp, entry) =>
      var s1 := Wrote(Prepared(c, s, e), Target(c, s, e), entry);
      if c.limit > 0 then Counted(s1, c.resolve(session, dates.count), |entry|) else s1
  }

  // ---------- Handles stand at the end of their files ----------

  /** Every open file exists; a handle with an offset of its own stands at the end of its file. */
  predicate AtEnd(s: State) {
    forall n :: n in s.files ==>
      && Live(n) in s.disk
      && (s.files[n].append || s.files[n].offset == |s.disk[Live(n)]|)
  }

  lemma {:induction false} OpenedAtEnd(c: Config, s: State, session: string, name: string)
    requires AtEnd(s)
    ensures AtEnd(Opened(c, s, session, name))
  {
  }

  lemma {:induction false} RotatedAtEnd(c: Config, s: State, name: string, stamp: string)
    requires AtEnd(s)
    ensures AtEnd(Rotated(c, s, name, stamp))
  {
    var r := Rotated(c, s, name, stamp);
    forall n | n in r.files ensures Live(n) in r.disk && (r.files[n].append || r.files[n].offset == |r.disk[Live(n)]|) {
      assert n != name ==> r.disk[Live(n)] == s.disk[Live(n)];
    }
  }

  lemma {:induction false} WroteAtEnd(s: State, name: string, entry: Data)
    requires AtEnd(s) && name in s.files
    ensures AtEnd(Wrote(s, name, entry))
  {
    var r := Wrote(s, name, entry);
    forall n | n in r.files ensures Live(n) in r.disk && (r.files[n].append || r.files[n].offset == |r.disk[Live(n)]|) {
      assert n != name ==> r.disk[Live(n)] == s.disk[Live(n)];
    }
  }

  lemma {:induction false} PreparedAtEnd(c: Config, s: State, e: Event)
    requires AtEnd(s) && e.Append?
    ensures AtEnd(Prepared(c, s, e))
  {
    var s1 := Opened(c, s, e.session, c.resolve(e.session, e.dates.open));
    OpenedAtEnd(c, s, e.session, c.resolve(e.session, e.dates.open));
    if Rotates(c, s, e) {
      var s2 := Rotated(c, s1, c.resolve(e.session, e.dates.check), e.stamp);
      RotatedAtEnd(c, s1, c.resolve(e.session, e.dates.check), e.stamp);
      OpenedAtEnd(c, s2, e.session, c.resolve(e.session, e.dates.reopen));
    }
  }

  /** After every event, so that a handle opened by a rotation, which does not append, never writes over
      anything. */
  lemma {:induction false} StepAtEnd(c: Config, s: State, e: Event)
    requires AtEnd(s)
    ensures AtEnd(Step(c, s, e))
  {
    if e.Append? {
      PreparedAtEnd(c, s, e);
      WroteAtEnd(Prepared(c, s, e), Target(c, s, e), e.entry);
    }
  }

  // ---------- What was kept ----------

  /** What a reader finds in an archive. */
  function Read(c: Config, d: Disk, name: string, stamp: string): Data {
    var p := Stored(c, name, stamp);
    if p !in d then [] else if c.compress then c.unpack(d[p]) else d[p]
  }

  function Archived(c: Config, d: Disk, name: string, stamps: seq<string>): Data {
    if stamps == [] then []
    else Archived(c, d, name, stamps[..|stamps| - 1]) + Read(c, d, name, stamps[|stamps| - 1])
  }

  /** The archives in the order of their rotation, then the live file. */
  function Log(c: Config, d: Disk, name: string, stamps: seq<string>): Data {
    Archived(c, d, name, stamps) + Current(d, name)
  }

  /** The directory together with the stamps of each file's archives, the last rotated last. */
  datatype World = World(state: State, trail: map<string, seq<string>>)

  function Trail(w: World, name: string): seq<string> {
    if name in w.trail then w.trail[name] else []
  }

  function Without(stamps: seq<string>, stamp: string): (r: seq<string>)
    ensures |r| <= |stamps|
  {
    if stamps == [] then []
    else
      var n := |stamps| - 1;
      if stamps[n] == stamp then Without(stamps[..n], stamp) else Without(stamps[..n], stamp) + [stamps[n]]
  }

  function Advance(c: Config, w: World, e: Event): World {
    World(Step(c, w.state, e),
          if e.Append? && Rotates(c, w.state, e)
          then
            var name := c.resolve(e.session, e.dates.check);
            w.trail[name := Without(Trail(w, name), e.stamp) + [e.stamp]]
          else w.trail)
  }

  /** From an empty directory; `Close` also stands for a restart of the program. */
  function Run(c: Config, events: seq<Event>): World {
    if events == [] then World(State(map[], map[]), map[])
    else Advance(c, Run(c, events[..|events| - 1]), events[|events| - 1])
  }

  function Given(c: Config, s: State, e: Event, name: string): Data {
    if e.Append? && Target(c, s, e) == name then e.entry else []
  }

  /** All that was appended to a file. */
  function Sent(c: Config, events: seq<Event>, name: string): Data {
    if events == [] then []
    else
      var before := events[..|events| - 1];
      Sent(c, before, name) + Given(c, Run(c, before).state, events[|events| - 1], name)
  }

  /** The append rotates the file onto an archive that has something in it. */
  predicate Overwrites(c: Config, s: State, e: Event, name: string) {
    && e.Append? && Rotates(c, s, e) && c.resolve(e.session, e.dates.check) == name
    && Read(c, s.disk, name, e.stamp) != []
  }

  predicate NeverOverwrites(c: Config, events: seq<Event>, name: string) {
    events == [] ||
    var before := events[..|events| - 1];
    NeverOverwrites(c, before, name) && !Overwrites(c, Run(c, before).state, events[|events| - 1], name)
  }

  predicate Distinct(stamps: seq<string>) {
    forall i, j :: 0 <= i < j < |stamps| ==> stamps[i] != stamps[j]
  }

  /** Exactly the archives on the trail exist. */
  ghost predicate Tracked(c: Config, d: Disk, name: string, stamps: seq<string>) {
    Distinct(stamps) && forall t :: t in stamps <==> Stored(c, name, t) in d
  }

  lemma {:induction false} SameArchives(c: Config, d: Disk, d': Disk, name: string, stamps: seq<string>)
    requires forall t :: t in stamps ==> Read(c, d, name, t) == Read(c, d', name, t)
    ensures Archived(c, d, name, stamps) == Archived(c, d', name, stamps)
  {
    if stamps != [] {
      SameArchives(c, d, d', name, stamps[..|stamps| - 1]);
    }
  }

  lemma {:induction false} WithoutHas(stamps: seq<string>, stamp: string, t: string)
    ensures t in Without(stamps, stamp) <==> t in stamps && t != stamp
  {
    if stamps != [] {
      var n := |stamps| - 1;
      assert stamps == stamps[..n] + [stamps[n]];
      WithoutHas(stamps[..n], stamp, t);
    }
  }

  lemma {:induction false} WithoutDistinct(stamps: seq<string>, stamp: string)
    requires Distinct(stamps)
    ensures Distinct(Without(stamps, stamp))
  {
    if stamps != [] {
      var n := |stamps| - 1;
      WithoutDistinct(stamps[..n], stamp);
      WithoutHas(stamps[..n], stamp, stamps[n]);
    }
  }

  lemma {:induction false} WithoutNone(stamps: seq<string>, stamp: string)
    requires stamp !in stamps
    ensures Without(stamps, stamp) == stamps
  {
    if stamps != [] {
      var n := |stamps| - 1;
      WithoutNone(stamps[..n], stamp);
      assert stamps[n] != stamp;
      assert stamps == stamps[..n] + [stamps[n]];
    }
  }

  lemma {:induction false} ArchivedSnoc(c: Config, d: Disk, name: string, stamps: seq<string>, stamp: string)
    ensures Archived(c, d, name, stamps + [stamp]) == Archived(c, d, name, stamps) + Read(c, d, name, stamp)
  {
    assert (stamps + [stamp])[..|stamps|] == stamps;
  }

  /** Taking one archive out of the trail shortens what is read by that archive. */
  lemma {:induction false} ArchivedWithout(c: Config, d: Disk, name: string, stamps: seq<string>, stamp: string)
    requires Distinct(stamps)
    requires stamp !in stamps ==> Read(c, d, name, stamp) == []
    ensures |Archived(c, d, name, Without(stamps, stamp))|
         == |Archived(c, d, name, stamps)| - |Read(c, d, name, stamp)|
    ensures Read(c, d, name, stamp) == []
        ==> Archived(c, d, name, Without(stamps, stamp)) == Archived(c, d, name, stamps)
  {
    if stamp !in stamps {
      WithoutNone(stamps, stamp);
    } else {
      var n := |stamps| - 1;
      if stamps[n] == stamp {
        WithoutNone(stamps[..n], stamp);
      } else {
        ArchivedWithout(c, d, name, stamps[..n], stamp);
        ArchivedSnoc(c, d, name, Without(stamps[..n], stamp), stamps[n]);
      }
    }
  }

  // ---------- Nothing is lost, unless an archive is overwritten ----------

  lemma {:induction false} RotatedReads(c: Config, s: State, name: string, stamp: string, n: string, t: string)
    requires Unpacks(c)
    ensures
      var d := Rotated(c, s, name, stamp).disk;
      && (Stored(c, n, t) in d <==> Stored(c, n, t) in s.disk || (n == name && t == stamp))
      && Read(c, d, n, t) == (if n == name && t == stamp then Current(s.disk, name) else Read(c, s.disk, n, t))
      && Current(d, n) == (if n == name then [] else Current(s.disk, n))
  {
  }

  lemma {:induction false} RotatedLog(c: Config, s: State, name: string, stamp: string, stamps: seq<string>)
    requires Unpacks(c) && Tracked(c, s.disk, name, stamps)
    ensures
      var d := Rotated(c, s, name, stamp).disk;
      var after := Without(stamps, stamp) + [stamp];
      && Tracked(c, d, name, after)
      && |Log(c, d, name, after)| == |Log(c, s.disk, name, stamps)| - |Read(c, s.disk, name, stamp)|
      && (Read(c, s.disk, name, stamp) == [] ==> Log(c, d, name, after) == Log(c, s.disk, name, stamps))
  {
    var d := Rotated(c, s, name, stamp).disk;
    var kept := Without(stamps, stamp);
    forall t ensures t in kept <==> t in stamps && t != stamp { WithoutHas(stamps, stamp, t); }
    forall t
      ensures Stored(c, name, t) in d <==> Stored(c, name, t) in s.disk || t == stamp
      ensures t != stamp ==> Read(c, d, name, t) == Read(c, s.disk, name, t)
    {
      RotatedReads(c, s, name, stamp, name, t);
    }
    RotatedReads(c, s, name, stamp, name, stamp);
    WithoutDistinct(stamps, stamp);
    ArchivedWithout(c, s.disk, name, stamps, stamp);
    SameArchives(c, s.disk, d, name, kept);
    ArchivedSnoc(c, d, name, kept, stamp);
  }

  /** Everything but the live files is as before. */
  ghost predicate ArchivesKept(c: Config, d: Disk, d': Disk, name: string) {
    forall t :: (Stored(c, name, t) in d <==> Stored(c, name, t) in d') && Read(c, d, name, t) == Read(c, d', name, t)
  }

  lemma {:induction false} KeptLog(c: Config, d: Disk, d': Disk, name: string, stamps: seq<string>)
    requires ArchivesKept(c, d, d', name) && Tracked(c, d, name, stamps)
    ensures Tracked(c, d', name, stamps)
    ensures Archived(c, d', name, stamps) == Archived(c, d, name, stamps)
  {
    SameArchives(c, d, d', name, stamps);
  }

  lemma {:induction false} OpenedKeeps(c: Config, s: State, session: string, file: string, name: string)
    ensures ArchivesKept(c, s.disk, Opened(c, s, session, file).disk, name)
    ensures Current(Opened(c, s, session, file).disk, name) == Current(s.disk, name)
  {
  }

  lemma {:induction false} WroteKeeps(c: Config, s: State, file: string, entry: Data, name: string)
    requires AtEnd(s) && file in s.files
    ensures ArchivesKept(c, s.disk, Wrote(s, file, entry).disk, name)
    ensures Current(Wrote(s, file, entry).disk, name) == Current(s.disk, name) + (if file == name then entry else [])
  {
  }

  /** The trail after an append's rotation, if there is one. */
  function TrailAfter(c: Config, s: State, e: Event, name: string, stamps: seq<string>): seq<string> {
    if e.Append? && Rotates(c, s, e) && c.resolve(e.session, e.dates.check) == name
    then Without(stamps, e.stamp) + [e.stamp] else stamps
  }

  lemma {:induction false} PreparedLog(c: Config, s: State, e: Event, name: string, stamps: seq<string>)
    requires Unpacks(c) && AtEnd(s) && e.Append? && Tracked(c, s.disk, name, stamps)
    ensures
      var d := Prepared(c, s, e).disk;
      var after := TrailAfter(c, s, e, name, stamps);
      && Tracked(c, d, name, after)
      && (Overwrites(c, s, e, name) ==> |Log(c, d, name, after)| < |Log(c, s.disk, name, stamps)|)
      && (!Overwrites(c, s, e, name) ==> Log(c, d, name, after) == Log(c, s.disk, name, stamps))
  {
    var s1 := Opened(c, s, e.session, c.resolve(e.session, e.dates.open));
    OpenedKeeps(c, s, e.session, c.resolve(e.session, e.dates.open), name);
    KeptLog(c, s.disk, s1.disk, name, stamps);
    if Rotates(c, s, e) {
      var file := c.resolve(e.session, e.dates.check);
      var s2 := Rotated(c, s1, file, e.stamp);
      var after := TrailAfter(c, s, e, name, stamps);
      if file == name {
        RotatedLog(c, s1, name, e.stamp, stamps);
      } else {
        forall t
          ensures Stored(c, name, t) in s1.disk <==> Stored(c, name, t) in s2.disk
          ensures Read(c, s1.disk, name, t) == Read(c, s2.disk, name, t)
        {
          RotatedReads(c, s1, file, e.stamp, name, t);
        }
        RotatedReads(c, s1, file, e.stamp, name, e.stamp);
        KeptLog(c, s1.disk, s2.disk, name, stamps);
      }
      OpenedKeeps(c, s2, e.session, c.resolve(e.session, e.dates.reopen), name);
      KeptLog(c, s2.disk, Prepared(c, s, e).disk, name, after);
    }
  }

  lemma {:induction false} WroteLog(c: Config, s: State, file: string, entry: Data, name: string, stamps: seq<string>, more: Data)
    requires AtEnd(s) && file in s.files && Tracked(c, s.disk, name, stamps)
    requires more == if file == name then entry else []
    ensures
      var d := Wrote(s, file, entry).disk;
      Tracked(c, d, name, stamps) && Log(c, d, name, stamps) == Log(c, s.disk, name, stamps) + more
  {
    var d := Wrote(s, file, entry).disk;
    WroteKeeps(c, s, file, entry, name);
    KeptLog(c, s.disk, d, name, stamps);
    Longer(Archived(c, s.disk, name, stamps), Current(s.disk, name), more);
  }

  lemma {:induction false} StepDisk(c: Config, s: State, e: Event)
    requires e.Append?
    ensures Step(c, s, e).disk == Wrote(Prepared(c, s, e), Target(c, s, e), e.entry).disk
  {
  }

  /** One event: the log gains what was appended, and loses only what an overwritten archive held. */
  lemma {:induction false} StepLog(c: Config, s: State, e: Event, name: string, stamps: seq<string>)
    requires Unpacks(c) && AtEnd(s) && Tracked(c, s.disk, name, stamps)
    ensures
      var d := Step(c, s, e).disk;
      var after := TrailAfter(c, s, e, name, stamps);
      && Tracked(c, d, name, after)
      && (Overwrites(c, s, e, name)
          ==> |Log(c, d, name, after)| < |Log(c, s.disk, name, stamps)| + |Given(c, s, e, name)|)
      && (!Overwrites(c, s, e, name)
          ==> Log(c, d, name, after) == Log(c, s.disk, name, stamps) + Given(c, s, e, name))
  {
    if e.Append? {
      PreparedLog(c, s, e, name, stamps);
      PreparedAtEnd(c, s, e);
      StepDisk(c, s, e);
      WroteLog(c, Prepared(c, s, e), Target(c, s, e), e.entry, name, TrailAfter(c, s, e, name, stamps),
               Given(c, s, e, name));
    }
  }

  lemma {:induction false} Longer(a: Data, b: Data, e: Data)
    ensures a + (b + e) == (a + b) + e
  {
  }

  /** Main result: the archives in rotation order followed by the live file are exactly what was appended, if and
      only if no rotation ever hit an archive, of the same file and second, that had something in it. */
  lemma {:induction false} LosslessExactly(c: Config, events: seq<Event>, name: string)
    requires Unpacks(c)
    ensures
      var w := Run(c, events);
      && AtEnd(w.state)
      && Tracked(c, w.state.disk, name, Trail(w, name))
      && |Log(c, w.state.disk, name, Trail(w, name))| <= |Sent(c, events, name)|
      && (Log(c, w.state.disk, name, Trail(w, name)) == Sent(c, events, name) <==> NeverOverwrites(c, events, name))
  {
    if events != [] {
      var before, e := events[..|events| - 1], events[|events| - 1];
      LosslessExactly(c, before, name);
      var w := Run(c, before);
      StepAtEnd(c, w.state, e);
      StepLog(c, w.state, e, name, Trail(w, name));
      assert Trail(Run(c, events), name) == TrailAfter(c, w.state, e, name, Trail(w, name));
      Compare(Log(c, w.state.disk, name, Trail(w, name)), Sent(c, before, name), Given(c, w.state, e, name));
    }
  }

  /** A log that has fallen short stays short. */
  lemma {:induction false} Compare(log: Data, sent: Data, more: Data)
    requires |log| <= |sent|
    ensures log + more == sent + more <==> log == sent
  {
    if log + more == sent + more {
      assert (log + more)[..|log|] == log && (sent + more)[..|sent|] == sent;
    }
  }

  lemma {:induction false} TrailStamps(c: Config, events: seq<Event>, name: string, t: string)
    requires t in Trail(Run(c, events), name)
    ensures exists i :: 0 <= i < |events| && events[i].Append? && events[i].stamp == t
  {
    if events != [] {
      var before, e := events[..|events| - 1], events[|events| - 1];
      var w := Run(c, before);
      assert Trail(Run(c, events), name) == TrailAfter(c, w.state, e, name, Trail(w, name));
      WithoutHas(Trail(w, name), if e.Append? then e.stamp else "", t);
      if t in Trail(w, name) {
        TrailStamps(c, before, name, t);
        var i :| 0 <= i < |before| && before[i].Append? && before[i].stamp == t;
        assert events[i] == before[i];
      }
    }
  }

  /** No two appends share a second. */
  predicate SecondsApart(events: seq<Event>) {
    forall i, j :: 0 <= i < j < |events| && events[i].Append? && events[j].Append? ==> events[i].stamp != events[j].stamp
  }

  /** So appends a second apart lose nothing, however files are closed, reopened and rotated between them. */
  lemma {:induction false} SecondsApartKeep(c: Config, events: seq<Event>, name: string)
    requires Unpacks(c) && SecondsApart(events)
    ensures
      var w := Run(c, events);
      NeverOverwrites(c, events, name) && Log(c, w.state.disk, name, Trail(w, name)) == Sent(c, events, name)
  {
    LosslessExactly(c, events, name);
    if events != [] {
      var before, e := events[..|events| - 1], events[|events| - 1];
      SecondsApartKeep(c, before, name);
      LosslessExactly(c, before, name);
      var w := Run(c, before);
      if Overwrites(c, w.state, e, name) {
        TrailStamps(c, before, name, e.stamp);
      }
    }
  }

  /** The readings that open, check and reopen give the same file. */
  predicate OneFile(c: Config, session: string, dates: Dates) {
    c.resolve(session, dates.open) == c.resolve(session, dates.check) == c.resolve(session, dates.reopen)
  }

  /** So does the one that counts. */
  predicate AllOneFile(c: Config, session: string, dates: Dates) {
    OneFile(c, session, dates) && c.resolve(session, dates.count) == c.resolve(session, dates.open)
  }

  predicate Steady(c: Config, e: Event) {
    e.Append? ==> AllOneFile(c, e.session, e.dates)
  }

  /** The first append to an empty directory, of one byte under a limit of one. */
  lemma {:induction false} FirstByte(c: Config, e: Event, name: string, x: bv8)
    requires c.limit == 1 && e.Append? && e.entry == [x] && e.dates.open == e.dates.check == e.dates.count
    requires name == c.resolve(e.session, e.dates.open)
    ensures Target(c, State(map[], map[]), e) == name
    ensures Step(c, State(map[], map[]), e) == State(map[Live(name) := [x]], map[name := Handle(true, 0, 1)])
  {
    var s := State(map[], map[]);
    var s1 := Opened(c, s, e.session, name);
    assert s1 == State(map[Live(name) := []], map[name := Handle(true, 0, 0)]);
    var none: Data := [];
    assert none + [x] == [x];
    assert Wrote(s1, name, [x]) == State(map[Live(name) := [x]], map[name := Handle(true, 0, 0)]);
  }

  /** Another one rotates it away. */
  lemma {:induction false} SecondByte(c: Config, e: Event, s: State, name: string, x: bv8)
    requires Unpacks(c) && c.limit == 1 && e.Append? && e.entry == [x] && Steady(c, e)
    requires name == c.resolve(e.session, e.dates.open)
    requires s == State(map[Live(name) := [x]], map[name := Handle(true, 0, 1)])
    ensures
      var s' := Step(c, s, e);
      Read(c, s'.disk, name, e.stamp) == [x] && name in s'.files && s'.files[name].written == 1
  {
    assert Opened(c, s, e.session, name) == s && Rotates(c, s, e);
    var s1 := Rotated(c, s, name, e.stamp);
    RotatedReads(c, s, name, e.stamp, name, e.stamp);
    assert Prepared(c, s, e) == s1;
    StepDisk(c, s, e);
  }

  /** Three appends in one second to a file that holds one: the second rotation overwrites the first. */
  lemma {:induction false} SameSecondLoses(c: Config, x: bv8, date: string, stamp: string)
    requires Unpacks(c) && c.limit == 1
    ensures
      var e := Append("s", Dates(date, date, date, date), stamp, [x]);
      var name, w := c.resolve("s", date), Run(c, [e, e, e]);
      && !NeverOverwrites(c, [e, e, e], name)
      && Log(c, w.state.disk, name, Trail(w, name)) != Sent(c, [e, e, e], name)
  {
    var e := Append("s", Dates(date, date, date, date), stamp, [x]);
    var name := c.resolve("s", date);
    assert [e, e, e][..2] == [e, e] && [e, e][..1] == [e] && [e][..0] == [];
    assert Run(c, [e]).state == Step(c, State(map[], map[]), e);
    FirstByte(c, e, name, x);
    SecondByte(c, e, Run(c, [e]).state, name, x);
    var s2 := Run(c, [e, e]).state;
    assert s2 == Step(c, Run(c, [e]).state, e);
    assert Overwrites(c, s2, e, name);
    LosslessExactly(c, [e, e, e], name);
  }
}
