/** The rotating writer as the program has it: a directory, and a map of open files that are updated in place. */
module RotatingWriters {
  import opened Rotation

  /** An open file: its descriptor, appending or at an offset of its own, and the size the writer counts. */
  class RotatingFile {
    const path: string
    var append: bool
    var offset: nat
    var written: nat

    constructor (path: string, written: nat)
      ensures this.path == path && append && offset == 0 && this.written == written
    {
      this.path := path;
      this.append := true;
      this.offset := 0;
      this.written := written;
    }

    function View(): Handle
      reads this
    {
      Handle(append, offset, written)
    }
  }

  class RotatingDirMemoryWriter {
    const config: Config
    var disk: Disk
    var files: map<string, RotatingFile>

    constructor (maxSizeMB: int, compress: bool, resolve: (string, string) -> string,
                 mentions: (string, string) -> bool, pack: Data -> Data, unpack: Data -> Data, disk: Disk)
      ensures config == Config(LimitOf(maxSizeMB), compress, resolve, mentions, pack, unpack)
      ensures Valid() && View() == State(disk, map[])
      ensures maxSizeMB == 0 ==> config.limit == 104_857_600
      ensures maxSizeMB > 0 ==> config.limit == maxSizeMB * 1_048_576
      ensures maxSizeMB < 0 ==> config.limit == 0
    {
      var maxSizeBytes := 100 * 1024 * 1024;
      if maxSizeMB > 0 {
        maxSizeBytes := maxSizeMB * 1024 * 1024;
      } else if maxSizeMB < 0 {
        maxSizeBytes := 0;
      }
      this.config := Config(maxSizeBytes, compress, resolve, mentions, pack, unpack);
      this.disk := disk;
      this.files := map[];
    }

    /** Files are kept under their own path, so no two entries share a file. */
    ghost predicate Valid()
      reads this
    {
      forall n :: n in files ==> files[n].path == n
    }

    ghost function View(): State
      reads this, files.Values
    {
      State(disk, map n | n in files :: files[n].View())
    }

    function ResolvePath(session: string, date: string): string {
      config.resolve(session, date)
    }

    /** Closes the session's files under other names. */
    method CloseStale(session: string, path: string)
      requires Valid()
      modifies this`files
      ensures Valid() && files.Values <= old(files.Values)
      ensures View() == State(old(disk), Fresh(config, old(View().files), session, path))
    {
      var names := files.Keys;
      ghost var before := files;
      while names != {}
        invariant names <= before.Keys && files.Keys <= before.Keys
        invariant forall n :: n in before.Keys ==>
                    (n in files <==> n in names || !(config.mentions(n, session) && n != path))
        invariant forall n :: n in files ==> files[n] == before[n]
        decreases |names|
      {
        var n :| n in names;
        names := names - {n};
        if config.mentions(n, session) && n != path {
          files := files - {n};
        }
      }
      assert files.Values <= before.Values;
    }

    method GetFile(session: string, date: string) returns (f: RotatingFile)
      requires Valid()
      modifies this
      ensures Valid() && fresh(files.Values - old(files.Values))
      ensures View() == Opened(config, old(View()), session, config.resolve(session, date))
      ensures config.resolve(session, date) in files && f == files[config.resolve(session, date)]
    {
      var path := ResolvePath(session, date);
      if path in files {
        return files[path];
      }
      CloseStale(session, path);
      f := OpenFile(path);
    }

    method OpenFile(path: string) returns (f: RotatingFile)
      requires Valid()
      modifies this
      ensures Valid() && fresh(f) && files == old(files)[path := f]
      ensures disk == if Live(path) in old(disk) then old(disk) else old(disk)[Live(path) := []]
      ensures f.View() == Handle(true, 0, |Current(old(disk), path)|)
    {
      if Live(path) !in disk {
        disk := disk[Live(path) := []];
      }
      f := new RotatingFile(path, |disk[Live(path)]|);
      files := files[path := f];
    }

    /** The files on disk: rename over any archive of that name, compress, create anew. */
    method MoveAside(path: string, stamp: string)
      requires Live(path) in disk
      modifies this`disk
      ensures disk == Rotated(config, State(old(disk), map[]), path, stamp).disk
    {
      var content := disk[Live(path)];
      var archive := Path.Archive(path, stamp);
      disk := (disk - {Live(path)})[archive := content];
      if config.compress {
        CompressFile(path, stamp);
      }
      disk := disk[Live(path) := []];
    }

    method Rotate(rf: RotatingFile, stamp: string)
      requires Valid() && rf.path in files && rf == files[rf.path] && Live(rf.path) in disk
      modifies this`disk, rf
      ensures View() == Rotated(config, old(View()), rf.path, stamp)
    {
      MoveAside(rf.path, stamp);
      rf.append, rf.offset, rf.written := false, 0, 0;
    }

    method CompressFile(name: string, stamp: string)
      requires Archive(name, stamp) in disk
      modifies this`disk
      ensures disk == old(disk)[Zipped(name, stamp) := config.pack(old(disk)[Archive(name, stamp)])]
                      - {Archive(name, stamp)}
    {
      disk := disk[Zipped(name, stamp) := config.pack(disk[Archive(name, stamp)])];
      disk := disk - {Archive(name, stamp)};
    }

    /** The write system call on an open file. */
    method WriteString(f: RotatingFile, entry: Data)
      requires Valid() && f.path in files && f == files[f.path] && Live(f.path) in disk
      modifies this`disk, f`offset
      ensures View() == Wrote(old(View()), f.path, entry)
    {
      disk := disk[Live(f.path) := Spliced(disk[Live(f.path)], f.View(), entry)];
      if !f.append {
        f.offset := f.offset + |entry|;
      }
    }

    /** Rotates if the entry would not fit, and gives the file to write to. */
    method MakeRoom(f: RotatingFile, ghost s: State, session: string, dates: Dates, stamp: string, entry: Data)
      returns (g: RotatingFile)
      requires Valid() && AtEnd(View())
      requires View() == Opened(config, s, session, config.resolve(session, dates.open))
      requires f.path == config.resolve(session, dates.open) && f.path in files && f == files[f.path]
      modifies this, files.Values
      ensures Valid() && fresh(files.Values - old(files.Values))
      ensures View() == Prepared(config, s, Event.Append(session, dates, stamp, entry))
      ensures g.path == Target(config, s, Event.Append(session, dates, stamp, entry))
      ensures g.path in files && g == files[g.path]
    {
      if config.limit > 0 {
        var path := ResolvePath(session, dates.check);
        if path in files && files[path].written + |entry| > config.limit {
          assert Live(path) in View().disk;
          Rotate(files[path], stamp);
          g := GetFile(session, dates.reopen);
          return;
        }
      }
      g := f;
    }

    method Count(session: string, date: string, n: nat)
      requires Valid()
      modifies files.Values
      ensures View() == Counted(old(View()), config.resolve(session, date), n)
    {
      var path := ResolvePath(session, date);
      if path in files {
        files[path].written := files[path].written + n;
      }
    }

    method Prepare(session: string, dates: Dates, stamp: string, entry: Data) returns (f: RotatingFile)
      requires Valid() && AtEnd(View())
      modifies this, files.Values
      ensures Valid() && AtEnd(View()) && fresh(files.Values - old(files.Values))
      ensures View() == Prepared(config, old(View()), Event.Append(session, dates, stamp, entry))
      ensures f.path == Target(config, old(View()), Event.Append(session, dates, stamp, entry))
      ensures f.path in files && f == files[f.path] && Live(f.path) in disk
    {
      ghost var s, e := View(), Event.Append(session, dates, stamp, entry);
      OpenedAtEnd(config, s, session, config.resolve(session, dates.open));
      f := GetFile(session, dates.open);
      f := MakeRoom(f, s, session, dates, stamp, entry);
      PreparedAtEnd(config, s, e);
      assert f.path in View().files;
    }

    method Append(session: string, dates: Dates, stamp: string, entry: Data)
      requires Valid() && AtEnd(View())
      modifies this, files.Values
      ensures Valid() && fresh(files.Values - old(files.Values))
      ensures View() == Step(config, old(View()), Event.Append(session, dates, stamp, entry))
    {
      var f := Prepare(session, dates, stamp, entry);
      WriteString(f, entry);
      if config.limit > 0 {
        Count(session, dates.count, |entry|);
      }
    }

    method Close()
      modifies this`files
      ensures Valid() && View() == Step(config, old(View()), Event.Close)
      ensures files == map[] && disk == old(disk)
    {
      files := map[];
    }
  }
}
