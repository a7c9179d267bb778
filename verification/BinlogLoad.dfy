/**
 How mysqlbinlog rebuilds the files of LOAD DATA statements: blocks of the log are collected in
 local files, and the printed statement loads the local file instead of the original one.
 */
module BinlogLoad {
  import opened Helpers

  const VERSIONS: nat := 1000
  const ID_LIMIT: nat := 0x1_0000_0000

  const QUERY_BASE: string := "SQL_LOAD_MB"

  /** The events that concern files; `id` tells concurrent loads apart. */
  datatype Event =
    | Format(version: nat)
    | CreateFile(id: nat, db: string, base: string, block: string)
    | BeginLoad(id: nat, block: string)
    | AppendBlock(id: nat, block: string)
    | ExecLoad(id: nat)
    | ExecuteLoadQuery(id: nat, db: string)

  // ---------- What the log means ----------

  /** A load under way: announced by CreateFile or by BeginLoad, with its file's own name and the bytes so far. */
  datatype Upload = Upload(create: bool, base: string, bytes: string)

  /** What a printed statement loads. */
  datatype Load = Load(base: string, bytes: string)

  /** The loads under way, and the loads of the statements printed so far. */
  datatype Log = Log(version: nat, uploads: map<nat, Upload>, loads: seq<Load>)

  function Finish(log: Log, id: nat, printed: bool): Log
    requires id in log.uploads
  {
    var u := log.uploads[id];
    log.(uploads := log.uploads - {id}, loads := log.loads + (if printed then [Load(u.base, u.bytes)] else []))
  }

  function After(skip: string -> bool, log: Log, e: Event): Log {
    match e
    case Format(version) => log.(version := version)
    case CreateFile(id, db, base, block) =>
      if skip(db) || log.version < 3 then log else log.(uploads := log.uploads[id := Upload(true, base, block)])
    case BeginLoad(id, block) => log.(uploads := log.uploads[id := Upload(false, QUERY_BASE, block)])
    case AppendBlock(id, block) =>
      if id !in log.uploads then log
      else log.(uploads := log.uploads[id := log.uploads[id].(bytes := log.uploads[id].bytes + block)])
    case ExecLoad(id) => if id in log.uploads && log.uploads[id].create then Finish(log, id, true) else log
    case ExecuteLoadQuery(id, db) =>
      if id in log.uploads && !log.uploads[id].create then Finish(log, id, !skip(db)) else log
  }

  function AfterAll(skip: string -> bool, log: Log, events: seq<Event>): Log {
    if events == [] then log
    else After(skip, AfterAll(skip, log, events[..|events| - 1]), events[|events| - 1])
  }

  // ---------- Local files ----------

  function HexDigit(d: nat): char
    requires d < 16
  {
    "0123456789abcdef"[d]
  }

  function Hex(n: nat): (s: string)
    ensures |s| > 0
  {
    (if n < 16 then "" else Hex(n / 16)) + [HexDigit(n % 16)]
  }

  lemma {:induction false} HexLength(n: nat, digits: nat, limit: nat)
    requires digits > 0 && limit == Power16(digits) && n < limit
    ensures |Hex(n)| <= digits
    decreases digits
  {
    if n >= 16 {
      HexLength(n / 16, digits - 1, Power16(digits - 1));
    }
  }

  function Power16(n: nat): nat {
    if n == 0 then 1 else 16 * Power16(n - 1)
  }

  function LocalName(dir: string, base: string, id: nat, version: nat): string {
    dir + base + "-" + Hex(id) + "-" + Hex(version)
  }

  /** Some name for a new local file is free. */
  predicate HasFreeName(files: Files, dir: string, base: string, id: nat) {
    exists v :: 0 <= v < VERSIONS && LocalName(dir, base, id, v) !in files
  }

  /** A new file with one of those names holds the block. */
  predicate NewFile(before: Files, files: Files, dir: string, base: string, id: nat, block: string) {
    exists v :: 0 <= v < VERSIONS && LocalName(dir, base, id, v) !in before
                && files == before[LocalName(dir, base, id, v) := block]
  }

  lemma {:induction false} HexHasNoBackslash(n: nat)
    ensures '\\' !in Hex(n)
  {
    if n < 16 {
    } else {
      HexHasNoBackslash(n / 16);
    }
  }

  /** Only the directory and the file's own name can bring a backslash into a local name. */
  lemma LocalNameSpelled(dir: string, base: string, id: nat, version: nat)
    ensures '\\' in LocalName(dir, base, id, version) <==> '\\' in dir || '\\' in base
  {
    HexHasNoBackslash(id);
    HexHasNoBackslash(version);
  }

  lemma NameSpelled(fname: string, dir: string, base: string, id: nat)
    requires exists v :: 0 <= v < VERSIONS && fname == LocalName(dir, base, id, v)
    ensures '\\' in fname <==> '\\' in dir || '\\' in base
  {
    var v :| 0 <= v < VERSIONS && fname == LocalName(dir, base, id, v);
    LocalNameSpelled(dir, base, id, v);
  }

  function Slashes(name: string): string {
    seq(|name|, i requires 0 <= i < |name| => if name[i] == '\\' then '/' else name[i])
  }

  method ToForwardSlashes(name: string) returns (shown: string)
    ensures shown == Slashes(name)
    ensures shown == name <==> '\\' !in name
  {
    shown := [];
    while |shown| < |name|
      invariant |shown| <= |name|
      invariant shown == Slashes(name)[..|shown|]
    {
      shown := shown + [if name[|shown|] == '\\' then '/' else name[|shown|]];
    }
    if '\\' in name {
      var i :| 0 <= i < |name| && name[i] == '\\';
      assert shown[i] == '/';
    }
  }

  /** The buffer for a local name is long enough for every file id and version. */
  lemma LocalNameFits(dir: string, base: string, id: nat, version: nat)
    requires id < ID_LIMIT && version < VERSIONS
    ensures |LocalName(dir, base, id, version)| + 1 <= |dir| + |base| + 9 + 9 + 1
  {
    assert Power16(8) == ID_LIMIT by {
      assert Power16(2) == 0x100;
      assert Power16(4) == 0x10000;
      assert Power16(6) == 0x1000000;
    }
    HexLength(id, 8, ID_LIMIT);
    assert Power16(3) == 0x1000;
    HexLength(version, 3, 0x1000);
  }

  // ---------- The processor's tables against the meaning of the log ----------

  /** An entry of the file table: zeroed, or a local file with or without a kept CreateFile event. */
  datatype Record = Vacant | Pending(fname: string, create: bool)

  type Files = map<string, string>

  predicate IsPending(records: seq<Record>, id: nat) {
    id < |records| && records[id].Pending?
  }

  /** The table holds exactly the loads under way, each with its bytes in a file of its own. */
  ghost predicate Holds(records: seq<Record>, files: Files, uploads: map<nat, Upload>) {
    && (forall id: nat :: id in uploads <==> IsPending(records, id))
    && (forall id: nat :: id in uploads ==>
          && records[id].create == uploads[id].create
          && records[id].fname in files && files[records[id].fname] == uploads[id].bytes)
    && (forall i, j :: 0 <= i < j < |records| && records[i].Pending? && records[j].Pending? ==>
          records[i].fname != records[j].fname)
  }

  /** The files of printed statements hold what those statements load, and are out of the table. */
  ghost predicate Delivered(records: seq<Record>, files: Files, names: seq<string>, loads: seq<Load>) {
    && |names| == |loads|
    && (forall k :: 0 <= k < |names| ==> names[k] in files && files[names[k]] == loads[k].bytes)
    && (forall k, l :: 0 <= k < l < |names| ==> names[k] != names[l])
    && (forall k, i :: 0 <= k < |names| && 0 <= i < |records| && records[i].Pending? ==> records[i].fname != names[k])
  }

  /** Files that were there before are left alone. */
  ghost predicate Preserved(records: seq<Record>, files: Files, before: Files) {
    && (forall f :: f in before ==> f in files && files[f] == before[f])
    && (forall i :: 0 <= i < |records| && records[i].Pending? ==> records[i].fname !in before)
  }

  /** A local name holds a backslash exactly when the directory or the file's own name does. */
  ghost predicate Spelled(dir: string, records: seq<Record>, names: seq<string>, log: Log) {
    && (forall id: nat :: id in log.uploads && IsPending(records, id) ==>
          ('\\' in records[id].fname <==> '\\' in dir || '\\' in log.uploads[id].base))
    && (forall k :: 0 <= k < |names| && k < |log.loads| ==>
          ('\\' in names[k] <==> '\\' in dir || '\\' in log.loads[k].base))
  }

  ghost predicate Agrees(records: seq<Record>, files: Files, names: seq<string>, before: Files, log: Log) {
    && Holds(records, files, log.uploads)
    && Delivered(records, files, names, log.loads)
    && Preserved(records, files, before)
  }

  /** set_dynamic: entries up to the new one are zeroed. */
  function Put(records: seq<Record>, id: nat, record: Record): (r: seq<Record>)
    ensures |r| == (if id < |records| then |records| else id + 1)
    ensures forall i :: 0 <= i < |r| ==>
              r[i] == (if i == id then record else if i < |records| then records[i] else Vacant)
  {
    if id < |records| then records[id := record]
    else records + seq(id - |records|, _ => Vacant) + [record]
  }

  lemma RegisterAgrees(records: seq<Record>, files: Files, names: seq<string>, before: Files, log: Log,
                       id: nat, fname: string, create: bool, base: string, block: string)
    requires Agrees(records, files, names, before, log) && fname !in files
    ensures Agrees(Put(records, id, Pending(fname, create)), files[fname := block], names, before,
                   log.(uploads := log.uploads[id := Upload(create, base, block)]))
  {
  }

  lemma AppendAgrees(records: seq<Record>, files: Files, names: seq<string>, before: Files, log: Log,
                     id: nat, block: string)
    requires Agrees(records, files, names, before, log) && id in log.uploads
    ensures records[id].fname in files
    ensures Agrees(records, files[records[id].fname := files[records[id].fname] + block], names, before,
                   log.(uploads := log.uploads[id := log.uploads[id].(bytes := log.uploads[id].bytes + block)]))
  {
  }

  lemma FinishAgrees(records: seq<Record>, files: Files, names: seq<string>, before: Files, log: Log,
                     id: nat, printed: bool)
    requires Agrees(records, files, names, before, log) && id in log.uploads
    ensures Agrees(records[id := Vacant], files, names + (if printed then [records[id].fname] else []), before,
                   Finish(log, id, printed))
  {
  }

  lemma RegisterSpelled(dir: string, records: seq<Record>, names: seq<string>, log: Log,
                        id: nat, fname: string, create: bool, base: string, block: string)
    requires Spelled(dir, records, names, log) && ('\\' in fname <==> '\\' in dir || '\\' in base)
    requires forall id: nat :: id in log.uploads <==> IsPending(records, id)
    ensures Spelled(dir, Put(records, id, Pending(fname, create)), names,
                    log.(uploads := log.uploads[id := Upload(create, base, block)]))
  {
  }

  lemma FinishSpelled(dir: string, records: seq<Record>, names: seq<string>, log: Log, id: nat, printed: bool)
    requires Spelled(dir, records, names, log) && |names| == |log.loads| && id in log.uploads && IsPending(records, id)
    ensures Spelled(dir, records[id := Vacant], names + (if printed then [records[id].fname] else []),
                    Finish(log, id, printed))
  {
  }

  // ---------- The processor ----------

  class Processor {
    const dir: string
    const skip: string -> bool
    var version: nat
    var records: seq<Record>
    var files: Files
    var shown: seq<string>          // the file names in the statements printed so far
    ghost const before: Files
    ghost var names: seq<string>    // the files those statements are about
    ghost var log: Log

    ghost predicate Valid()
      reads this
    {
      && version == log.version
      && Agrees(records, files, names, before, log)
      && Spelled(dir, records, names, log)
      && |shown| == |names| && forall k :: 0 <= k < |names| ==> shown[k] == Slashes(names[k])
    }

    constructor (dir: string, skip: string -> bool, version: nat, files: Files)
      ensures Valid() && this.skip == skip && this.dir == dir && before == files && this.files == files
      ensures log == Log(version, map[], [])
    {
      this.dir, this.skip, this.version, this.files := dir, skip, version, files;
      records, shown, names, before, log := [], [], [], files, Log(version, map[], []);
    }

    /** The first free one of a thousand names; none is returned exactly when all are taken. */
    method CreateUniqueFile(base: string, id: nat) returns (fname: Option<string>)
      modifies this`files
      ensures fname.Some? <==> HasFreeName(old(files), dir, base, id)
      ensures fname.None? ==> files == old(files)
      ensures fname.Some? ==> fname.value !in old(files) && files == old(files)[fname.value := ""]
      ensures fname.Some? ==> exists v :: 0 <= v < VERSIONS && fname.value == LocalName(dir, base, id, v)
    {
      for v := 0 to VERSIONS
        invariant forall u :: 0 <= u < v ==> LocalName(dir, base, id, u) in files
        invariant files == old(files)
      {
        var name := LocalName(dir, base, id, v);
        if name !in files {
          files := files[name := ""];
          return Some(name);
        }
      }
      return None;
    }

    method ProcessFirstEvent(base: string, block: string, id: nat, create: bool) returns (ok: bool)
      requires Valid()
      modifies this`records, this`files, this`log
      ensures ok <==> HasFreeName(old(files), dir, base, id)
      ensures ok ==> Valid() && log == old(log).(uploads := old(log).uploads[id := Upload(create, base, block)])
      ensures ok ==> NewFile(old(files), files, dir, base, id, block)
      ensures !ok ==> Valid() && log == old(log) && files == old(files)
    {
      var fname := CreateUniqueFile(base, id);
      ok := fname.Some?;
      if ok {
        RegisterAgrees(records, old(files), names, before, log, id, fname.value, create, base, block);
        NameSpelled(fname.value, dir, base, id);
        RegisterSpelled(dir, records, names, log, id, fname.value, create, base, block);
        records := Put(records, id, Pending(fname.value, create));
        assert "" + block == block;
        files := files[fname.value := files[fname.value] + block];
        assert files == old(files)[fname.value := block];
        log := log.(uploads := log.uploads[id := Upload(create, base, block)]);
      }
    }

    /** A block for a file that was never announced is ignored. */
    method ProcessAppend(id: nat, block: string)
      requires Valid()
      modifies this`files, this`log
      ensures Valid() && log == After(skip, old(log), AppendBlock(id, block))
    {
      if id < |records| && records[id].Pending? {
        assert IsPending(records, id);
        AppendAgrees(records, files, names, before, log, id, block);
        files := files[records[id].fname := files[records[id].fname] + block];
      }
      log := After(skip, log, AppendBlock(id, block));
    }

    /** grab_event: takes the file of a load announced by CreateFile out of the table. */
    method GrabEvent(id: nat) returns (fname: Option<string>)
      requires Valid()
      modifies this`records
      ensures fname.Some? <==> id in log.uploads && log.uploads[id].create
      ensures fname.Some? ==> old(records)[id].fname == fname.value && records == old(records)[id := Vacant]
      ensures fname.None? ==> records == old(records)
    {
      fname := None;
      if id < |records| && records[id].Pending? && records[id].create {
        assert IsPending(records, id);
        fname := Some(records[id].fname);
        records := records[id := Vacant];
      }
    }

    /** grab_fname: the same for a load announced by BeginLoad. */
    method GrabFname(id: nat) returns (fname: Option<string>)
      requires Valid()
      modifies this`records
      ensures fname.Some? <==> id in log.uploads && !log.uploads[id].create
      ensures fname.Some? ==> old(records)[id].fname == fname.value && records == old(records)[id := Vacant]
      ensures fname.None? ==> records == old(records)
    {
      fname := None;
      if id < |records| && !(records[id].Pending? && records[id].create) {
        if records[id].Pending? {
          assert IsPending(records, id);
          fname := Some(records[id].fname);
        }
        records := records[id := Vacant];
      }
    }

    /** Prints the statement for a finished load, with the local name in forward slashes. */
    method Print(fname: string, id: nat, ghost was: seq<Record>)
      requires id in log.uploads && Agrees(was, files, names, before, log) && version == log.version
      requires Spelled(dir, was, names, log)
      requires |shown| == |names| && forall k :: 0 <= k < |names| ==> shown[k] == Slashes(names[k])
      requires was[id].fname == fname && records == was[id := Vacant]
      modifies this`shown, this`names, this`log
      ensures Valid() && log == Finish(old(log), id, true)
    {
      FinishAgrees(was, files, names, before, log, id, true);
      FinishSpelled(dir, was, names, log, id, true);
      var local := ToForwardSlashes(fname);
      shown := shown + [local];
      names := names + [fname];
      log := Finish(log, id, true);
    }

    method ProcessExec(id: nat)
      requires Valid()
      modifies this`records, this`shown, this`names, this`log
      ensures Valid() && log == After(skip, old(log), ExecLoad(id))
    {
      ghost var was := records;
      var fname := GrabEvent(id);
      if fname.Some? {
        Print(fname.value, id, was);
      }
    }

    /** The file is forgotten even where the statement's database is left out of the output. */
    method ProcessExecuteQuery(id: nat, db: string)
      requires Valid()
      modifies this`records, this`shown, this`names, this`log
      ensures Valid() && log == After(skip, old(log), ExecuteLoadQuery(id, db))
    {
      ghost var was := records;
      var fname := GrabFname(id);
      if fname.Some? {
        if !skip(db) {
          Print(fname.value, id, was);
        } else {
          FinishAgrees(was, files, names, before, log, id, false);
          FinishSpelled(dir, was, names, log, id, false);
          assert names + [] == names;
          log := Finish(log, id, false);
        }
      }
    }

    /** Fails exactly when a new local file is needed and all its names are taken. */
    method Process(e: Event) returns (ok: bool)
      requires Valid()
      modifies this
      ensures Valid()
      ensures log == if ok then After(skip, old(log), e) else old(log)
      ensures !ok || (!NeedsFile(skip, old(log), e) && !e.AppendBlock?) ==> files == old(files)
      ensures ok && NeedsFile(skip, old(log), e) ==> NewFile(old(files), files, dir, BaseOf(e), e.id, e.block)
      ensures ok <==> !NeedsFile(skip, old(log), e) || HasFreeName(old(files), dir, BaseOf(e), e.id)
    {
      ok := true;
      match e
      case Format(v) =>
        version := v;
        log := log.(version := v);
      case CreateFile(id, db, base, block) =>
        if !skip(db) && version >= 3 {
          ok := ProcessFirstEvent(base, block, id, true);
        }
      case BeginLoad(id, block) => ok := ProcessFirstEvent(QUERY_BASE, block, id, false);
      case AppendBlock(id, block) => ProcessAppend(id, block);
      case ExecLoad(id) => ProcessExec(id);
      case ExecuteLoadQuery(id, db) => ProcessExecuteQuery(id, db);
    }

    method Run(events: seq<Event>) returns (done: nat)
      requires Valid()
      modifies this
      ensures done <= |events| && Valid() && log == AfterAll(skip, old(log), events[..done])
      ensures done < |events| ==> NeedsFile(skip, log, events[done])
      ensures done < |events| ==> !HasFreeName(files, dir, BaseOf(events[done]), events[done].id)
    {
      done := 0;
      while done < |events|
        invariant done <= |events| && Valid() && log == AfterAll(skip, old(log), events[..done])
      {
        var ok := Process(events[done]);
        if !ok {
          return;
        }
        assert events[..done + 1][..done] == events[..done];
        done := done + 1;
      }
    }

    /**
     After a whole log, the files behind the printed statements still hold what those load. The
     name printed is that file's name exactly when neither the directory nor the file's own name in
     the log has a backslash; so without backslashes every printed name leads to the right bytes.
     */
    method ProcessAll(events: seq<Event>) returns (done: nat)
      requires Valid() && log.uploads == map[] && log.loads == []
      modifies this
      ensures done <= |events| && log == AfterAll(skip, old(log), events[..done])
      ensures |shown| == |names| == |log.loads|
      ensures forall k :: 0 <= k < |names| ==> names[k] in files && files[names[k]] == log.loads[k].bytes
      ensures forall k :: 0 <= k < |names| ==> shown[k] == Slashes(names[k])
      ensures forall k :: 0 <= k < |names| ==>
                (shown[k] == names[k] <==> '\\' !in dir && '\\' !in log.loads[k].base)
      ensures NoBackslashes(dir, events) ==>
                forall k :: 0 <= k < |shown| ==> shown[k] in files && files[shown[k]] == log.loads[k].bytes
      ensures forall f :: f in before ==> f in files && files[f] == before[f]
      ensures done < |events| ==> NeedsFile(skip, log, events[done])
      ensures done < |events| ==> !HasFreeName(files, dir, BaseOf(events[done]), events[done].id)
    {
      done := Run(events);
      forall k | 0 <= k < |names|
        ensures shown[k] == names[k] <==> '\\' !in dir && '\\' !in log.loads[k].base
      {
        SlashesKeep(names[k]);
      }
      if NoBackslashes(dir, events) {
        PlainAfterAll(skip, old(log), events[..done]);
      }
    }
  }

  /** A log whose printed statement names a file that does not exist: the file made has a backslash. */
  method PrintedFileCanBeMissing() returns (p: Processor)
    ensures p.shown != [] && p.shown[0] !in p.files
  {
    p := new Processor("/", db => false, 3, map[]);
    var created := p.Process(CreateFile(1, "", "a\\b", "x"));
    NameIsFree(map[], "/", "a\\b", 1);
    assert created;
    var name :| p.files == map[name := "x"] && '\\' in name;
    var executed := p.Process(ExecLoad(1));
    SlashesKeep(p.names[0]);
  }

  lemma NameIsFree(files: Files, dir: string, base: string, id: nat)
    requires files == map[]
    ensures HasFreeName(files, dir, base, id)
  {
    assert LocalName(dir, base, id, 0) !in files;
  }

  lemma SlashesKeep(name: string)
    ensures Slashes(name) == name <==> '\\' !in name
    ensures '\\' !in Slashes(name)
  {
    if '\\' in name {
      var i :| 0 <= i < |name| && name[i] == '\\';
      assert Slashes(name)[i] == '/';
    }
  }

  predicate NoBackslashes(dir: string, events: seq<Event>) {
    '\\' !in dir && forall i :: 0 <= i < |events| && events[i].CreateFile? ==> '\\' !in events[i].base
  }

  ghost predicate Plain(log: Log) {
    && (forall id :: id in log.uploads ==> '\\' !in log.uploads[id].base)
    && (forall k :: 0 <= k < |log.loads| ==> '\\' !in log.loads[k].base)
  }

  lemma {:induction false} PlainAfterAll(skip: string -> bool, log: Log, events: seq<Event>)
    requires Plain(log) && NoBackslashes("", events)
    ensures Plain(AfterAll(skip, log, events))
  {
    if events == [] {
    } else {
      PlainAfterAll(skip, log, events[..|events| - 1]);
      PlainAfter(skip, AfterAll(skip, log, events[..|events| - 1]), events[|events| - 1]);
    }
  }

  lemma PlainAfter(skip: string -> bool, log: Log, e: Event)
    requires Plain(log) && (e.CreateFile? ==> '\\' !in e.base)
    ensures Plain(After(skip, log, e))
  {
  }

  predicate NeedsFile(skip: string -> bool, log: Log, e: Event) {
    (e.CreateFile? && !skip(e.db) && log.version >= 3) || e.BeginLoad?
  }

  function BaseOf(e: Event): string {
    if e.CreateFile? then e.base else QUERY_BASE
  }

  // ---------- What a printed statement loads ----------

  /** The blocks appended to load `id`, in order. */
  function Appended(events: seq<Event>, id: nat): string {
    if events == [] then ""
    else
      var last := events[|events| - 1];
      Appended(events[..|events| - 1], id) + (if last.AppendBlock? && last.id == id then last.block else "")
  }

  /** The event neither announces nor finishes load `id`. */
  predicate Continues(e: Event, id: nat) {
    e.Format? || e.id != id || e.AppendBlock?
  }

  lemma ContinuedUpload(skip: string -> bool, log: Log, e: Event, id: nat)
    requires id in log.uploads && Continues(e, id)
    ensures id in After(skip, log, e).uploads
    ensures After(skip, log, e).uploads[id] ==
            log.uploads[id].(bytes := log.uploads[id].bytes + (if e.AppendBlock? && e.id == id then e.block else ""))
  {
    assert log.uploads[id].bytes + "" == log.uploads[id].bytes;
  }

  lemma {:induction false} BytesSoFar(skip: string -> bool, log: Log, mid: seq<Event>, id: nat)
    requires id in log.uploads && forall i :: 0 <= i < |mid| ==> Continues(mid[i], id)
    ensures id in AfterAll(skip, log, mid).uploads
    ensures AfterAll(skip, log, mid).uploads[id] ==
            log.uploads[id].(bytes := log.uploads[id].bytes + Appended(mid, id))
  {
    if mid == [] {
      assert log.uploads[id].bytes + "" == log.uploads[id].bytes;
    } else {
      var init := mid[..|mid| - 1];
      BytesSoFar(skip, log, init, id);
      ContinuedUpload(skip, AfterAll(skip, log, init), mid[|mid| - 1], id);
    }
  }

  lemma Announced(skip: string -> bool, log: Log, first: Event)
    requires NeedsFile(skip, log, first)
    ensures first.id in After(skip, log, first).uploads
    ensures After(skip, log, first).uploads[first.id] == Upload(first.CreateFile?, BaseOf(first), first.block)
  {
  }

  /** The event executes a load announced in the same way. */
  predicate Executes(e: Event, id: nat, create: bool) {
    if create then e == ExecLoad(id) else e.ExecuteLoadQuery? && e.id == id
  }

  lemma ExecutedOnce(skip: string -> bool, log: Log, exec: Event, id: nat)
    requires id in log.uploads && Executes(exec, id, log.uploads[id].create)
    ensures After(skip, log, exec) == Finish(log, id, exec.ExecLoad? || !skip(exec.db))
    ensures After(skip, After(skip, log, exec), exec) == After(skip, log, exec)
  {
    if exec.ExecLoad? {
      assert After(skip, log, exec) == Finish(log, id, true);
    } else {
      assert After(skip, log, exec) == Finish(log, id, !skip(exec.db));
    }
  }

  /** What the statement executed by `exec` adds to the loads, if it is printed. */
  function Printed(skip: string -> bool, exec: Event, load: Load): seq<Load> {
    if exec.ExecLoad? || (exec.ExecuteLoadQuery? && !skip(exec.db)) then [load] else []
  }

  /**
   A statement loads its first block followed by every block appended since, whatever other loads
   are interleaved; and it is printed once: a second execution finds nothing.
   */
  lemma LoadsWholeFile(skip: string -> bool, log: Log, first: Event, mid: seq<Event>, exec: Event)
    requires NeedsFile(skip, log, first) && Executes(exec, first.id, first.CreateFile?)
    requires forall i :: 0 <= i < |mid| ==> Continues(mid[i], first.id)
    ensures var reached := AfterAll(skip, After(skip, log, first), mid);
            var end := After(skip, reached, exec);
            var load := Load(BaseOf(first), first.block + Appended(mid, first.id));
            && end.loads == reached.loads + Printed(skip, exec, load)
            && first.id !in end.uploads && After(skip, end, exec) == end
  {
    Announced(skip, log, first);
    BytesSoFar(skip, After(skip, log, first), mid, first.id);
    ExecutedOnce(skip, AfterAll(skip, After(skip, log, first), mid), exec, first.id);
  }
}
