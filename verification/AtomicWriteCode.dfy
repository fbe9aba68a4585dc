/** `write_atomic_via` as the sequential code it is, run against a disk whose every operation may
    fail; each call is one run of the step-by-step machine. */
module AtomicWriteCode {
  import opened Common
  import opened TempNames
  import opened AtomicWrite
  import opened AtomicWriteSafety
  import opened AtomicWriteExact

  /** What the environment decides during one call: which operations fail, and how many bytes
      the write gets out before it stops. */
  datatype Faults = Faults(create: bool, mode: nat, written: nat, sync: bool, copyMode: bool, rename: bool,
      remove: bool)

  class Disk {
    var files: map<Path, File>

    constructor (files: map<Path, File>)
      ensures this.files == files
    {
      this.files := files;
    }

    method Create(p: Path, mode: nat, ok: bool)
      modifies this
      ensures files == if !ok then old(files)
                       else old(files)[p := File([], if p in old(files) then old(files)[p].mode else mode)]
    {
      if ok {
        files := files[p := File([], if p in files then files[p].mode else mode)];
      }
    }

    method Append(p: Path, chunk: Bytes)
      requires p in files
      modifies this
      ensures files == old(files)[p := old(files)[p].(bytes := old(files)[p].bytes + chunk)]
    {
      files := files[p := files[p].(bytes := files[p].bytes + chunk)];
    }

    method CopyMode(source: Path, p: Path)
      requires p in files
      modifies this
      ensures files == if source in old(files) then old(files)[p := old(files)[p].(mode := old(files)[source].mode)]
                       else old(files)
    {
      if source in files {
        files := files[p := files[p].(mode := files[source].mode)];
      }
    }

    method RenameOver(p: Path, target: Path, ok: bool)
      requires p in files
      modifies this
      ensures files == if ok then (old(files) - {p})[target := old(files)[p]] else old(files)
    {
      if ok {
        files := (files - {p})[target := files[p]];
      }
    }

    method Remove(p: Path, ok: bool)
      modifies this
      ensures files == if ok then old(files) - {p} else old(files)
    {
      if ok {
        files := files - {p};
      }
    }
  }

  /** The machine at the moment the call starts: one thread has reserved its temporary path. */
  ghost function Called(files: map<Path, File>, t: Thread, temp: Path, request: Request): State {
    State(files, map[t.pid := 0], map[t := Job(0, temp, Reserved)], [request], [], map[])
  }

  ghost predicate CallOf(s0: State, t: Thread, temp: Path, target: Path, bytes: Bytes) {
    && t in s0.threads && s0.threads[t].temp == temp && s0.threads[t].ticket < |s0.begun|
    && s0.begun[s0.threads[t].ticket] == Request(Named(target), bytes)
  }

  /** The machine with the disk as it is now and the thread in `phase`. */
  ghost predicate At(s0: State, es: seq<Event>, files: map<Path, File>, t: Thread, phase: Phase) {
    && t in s0.threads
    && After(s0, es).Some?
    && After(s0, es).value.files == files
    && After(s0, es).value.begun == s0.begun
    && After(s0, es).value.outcomes == s0.outcomes
    && After(s0, es).value.threads == s0.threads[t := s0.threads[t].(phase := phase)]
  }

  lemma UpdateTwice(m: map<Thread, Job>, t: Thread, x: Job, y: Job)
    ensures m[t := x][t := y] == m[t := y]
  {
  }

  lemma Started(s0: State, t: Thread)
    requires t in s0.threads
    ensures At(s0, [], s0.files, t, s0.threads[t].phase)
  {
    assert s0.threads == s0.threads[t := s0.threads[t].(phase := s0.threads[t].phase)];
  }

  lemma Created(s0: State, es: seq<Event>, files: map<Path, File>, t: Thread, temp: Path, target: Path, bytes: Bytes,
                ok: bool, mode: nat) returns (es': seq<Event>)
    requires CallOf(s0, t, temp, target, bytes) && At(s0, es, files, t, Reserved)
    ensures At(s0, es', if ok then files[temp := File([], if temp in files then files[temp].mode else mode)] else files,
               t, if ok then Writing(0) else Failing)
  {
    es' := es + [Create(t, ok, mode)];
    Snoc(s0, es, Create(t, ok, mode));
    UpdateTwice(s0.threads, t, s0.threads[t].(phase := Reserved),
        s0.threads[t].(phase := if ok then Writing(0) else Failing));
  }

  lemma Wrote(s0: State, es: seq<Event>, files: map<Path, File>, t: Thread, temp: Path, target: Path, bytes: Bytes,
              written: nat, count: nat) returns (es': seq<Event>)
    requires CallOf(s0, t, temp, target, bytes) && At(s0, es, files, t, Writing(written))
    requires 0 < count <= |bytes| - written && temp in files
    ensures At(s0, es', files[temp := files[temp].(bytes := files[temp].bytes + bytes[written..written + count])],
               t, Writing(written + count))
  {
    es' := es + [Write(t, true, count)];
    Snoc(s0, es, Write(t, true, count));
    UpdateTwice(s0.threads, t, s0.threads[t].(phase := Writing(written)),
        s0.threads[t].(phase := Writing(written + count)));
  }

  lemma WriteStopped(s0: State, es: seq<Event>, files: map<Path, File>, t: Thread, temp: Path, target: Path,
      bytes: Bytes,
                     written: nat) returns (es': seq<Event>)
    requires CallOf(s0, t, temp, target, bytes) && At(s0, es, files, t, Writing(written)) && written < |bytes|
    ensures At(s0, es', files, t, Failing)
  {
    es' := es + [Write(t, false, 0)];
    Snoc(s0, es, Write(t, false, 0));
    UpdateTwice(s0.threads, t, s0.threads[t].(phase := Writing(written)), s0.threads[t].(phase := Failing));
  }

  lemma Flushed(s0: State, es: seq<Event>, files: map<Path, File>, t: Thread, temp: Path, target: Path, bytes: Bytes,
                ok: bool) returns (es': seq<Event>)
    requires CallOf(s0, t, temp, target, bytes) && At(s0, es, files, t, Writing(|bytes|))
    ensures At(s0, es', files, t, if ok then Synced else Failing)
  {
    es' := es + [Sync(t, ok)];
    Snoc(s0, es, Sync(t, ok));
    UpdateTwice(s0.threads, t, s0.threads[t].(phase := Writing(|bytes|)),
        s0.threads[t].(phase := if ok then Synced else Failing));
  }

  lemma CopiedMode(s0: State, es: seq<Event>, files: map<Path, File>, t: Thread, temp: Path, target: Path, bytes: Bytes,
                   ok: bool) returns (es': seq<Event>)
    requires CallOf(s0, t, temp, target, bytes) && At(s0, es, files, t, Synced) && temp in files
    ensures At(s0, es', if ok && target in files then files[temp := files[temp].(mode := files[target].mode)]
        else files,
               t, if ok then Moded else Failing)
  {
    es' := es + [CopyMode(t, ok)];
    Snoc(s0, es, CopyMode(t, ok));
    UpdateTwice(s0.threads, t, s0.threads[t].(phase := Synced), s0.threads[t].(phase := if ok then Moded else Failing));
  }

  lemma Flipped(s0: State, es: seq<Event>, files: map<Path, File>, t: Thread, temp: Path, target: Path, bytes: Bytes,
                ok: bool) returns (es': seq<Event>)
    requires CallOf(s0, t, temp, target, bytes) && At(s0, es, files, t, Moded) && temp in files
    ensures At(s0, es', if ok then (files - {temp})[target := files[temp]] else files, t, if ok then Renamed
        else Failing)
  {
    es' := es + [Rename(t, ok)];
    Snoc(s0, es, Rename(t, ok));
    UpdateTwice(s0.threads, t, s0.threads[t].(phase := Moded),
        s0.threads[t].(phase := if ok then Renamed else Failing));
  }

  lemma Finished(s0: State, es: seq<Event>, files: map<Path, File>, t: Thread, temp: Path, target: Path, bytes: Bytes,
                 ok: bool, removed: bool) returns (es': seq<Event>)
    requires CallOf(s0, t, temp, target, bytes) && At(s0, es, files, t, if ok then Renamed else Failing)
    ensures
      var end := After(s0, es');
      && end.Some? && end.value.files == (if !ok && removed then files - {temp} else files)
      && end.value.outcomes == s0.outcomes[s0.threads[t].ticket := ok]
  {
    var e := if ok then Return(t) else Cleanup(t, removed);
    es' := es + [e];
    Snoc(s0, es, e);
  }

  /** Creating over litter keeps its mode. */
  function FreshMode(files: map<Path, File>, temp: Path, f: Faults): nat {
    if temp in files then files[temp].mode else f.mode
  }

  /** Create, write everything and flush. */
  method FillTemp(disk: Disk, t: Thread, temp: Path, target: Path, bytes: Bytes, f: Faults, ghost s0: State)
    returns (ok: bool, ghost es: seq<Event>)
    requires CallOf(s0, t, temp, target, bytes) && At(s0, [], disk.files, t, Reserved)
    modifies disk
    ensures At(s0, es, disk.files, t, if ok then Synced else Failing)
    ensures SameElsewhere(old(disk.files), disk.files, temp)
    ensures ok <==> f.create && |bytes| <= f.written && f.sync
    ensures ok ==> temp in disk.files && disk.files[temp] == File(bytes, FreshMode(old(disk.files), temp, f))
  {
    hide At, CallOf;
    es := Created(s0, [], disk.files, t, temp, target, bytes, f.create, f.mode);
    disk.Create(temp, f.mode, f.create);
    if !f.create {
      return false, es;
    }
    var written := if f.written <= |bytes| then f.written else |bytes|;
    if 0 < written {
      es := Wrote(s0, es, disk.files, t, temp, target, bytes, 0, written);
      disk.Append(temp, bytes[0..written]);
    }
    if written < |bytes| {
      es := WriteStopped(s0, es, disk.files, t, temp, target, bytes, written);
      return false, es;
    }
    assert bytes[0..written] == bytes;
    es := Flushed(s0, es, disk.files, t, temp, target, bytes, f.sync);
    ok := f.sync;
  }

  /** Copy the target's mode, then flip the temporary file over the target. */
  method Publish(disk: Disk, t: Thread, temp: Path, target: Path, bytes: Bytes, f: Faults, ghost s0: State,
                 ghost done: seq<Event>)
    returns (ok: bool, ghost es: seq<Event>)
    requires CallOf(s0, t, temp, target, bytes) && At(s0, done, disk.files, t, Synced)
    requires temp in disk.files && temp != target
    modifies disk
    ensures At(s0, es, disk.files, t, if ok then Renamed else Failing)
    ensures ok <==> f.copyMode && f.rename
    ensures
      var was := old(disk.files);
      var mode := if target in was then was[target].mode else was[temp].mode;
      ok ==> disk.files == (was - {temp})[target := File(was[temp].bytes, mode)]
    ensures !ok ==> SameElsewhere(old(disk.files), disk.files, temp)
  {
    hide At, CallOf;
    es := CopiedMode(s0, done, disk.files, t, temp, target, bytes, f.copyMode);
    if !f.copyMode {
      return false, es;
    }
    disk.CopyMode(target, temp);
    es := Flipped(s0, es, disk.files, t, temp, target, bytes, f.rename);
    disk.RenameOver(temp, target, f.rename);
    ok := f.rename;
  }

  /** What a write that succeeds makes of the files: the whole payload under the target's mode. */
  function Replaced(files: map<Path, File>, temp: Path, target: Path, bytes: Bytes, f: Faults): map<Path, File> {
    (files - {temp})[target := File(bytes, if target in files then files[target].mode else FreshMode(files, temp, f))]
  }

  /** The attempt whose failure is cleaned up after. */
  method Attempt(disk: Disk, t: Thread, temp: Path, target: Path, bytes: Bytes, f: Faults, ghost s0: State)
    returns (ok: bool, ghost es: seq<Event>)
    requires CallOf(s0, t, temp, target, bytes) && At(s0, [], disk.files, t, Reserved) && temp != target
    modifies disk
    ensures At(s0, es, disk.files, t, if ok then Renamed else Failing)
    ensures ok <==> f.create && |bytes| <= f.written && f.sync && f.copyMode && f.rename
    ensures ok ==> disk.files == Replaced(old(disk.files), temp, target, bytes, f)
    ensures !ok ==> SameElsewhere(old(disk.files), disk.files, temp)
  {
    hide At, CallOf, FreshMode;
    ghost var was := disk.files;
    ok, es := FillTemp(disk, t, temp, target, bytes, f, s0);
    if ok {
      ghost var filled := disk.files;
      ok, es := Publish(disk, t, temp, target, bytes, f, s0, es);
      assert was - {temp} == filled - {temp};
    }
  }

  /** `write_atomic_via`: refuse a nameless target, attempt, and clean up after any failure. */
  method WriteAtomicVia(disk: Disk, t: Thread, temp: Path, target: Target, bytes: Bytes, f: Faults)
    returns (ok: bool, ghost es: seq<Event>)
    requires target.Named? ==> temp != target.path
    modifies disk
    ensures target.Nameless? ==> !ok && disk.files == old(disk.files)
    ensures target.Named? ==>
              var end := After(Called(old(disk.files), t, temp, Request(target, bytes)), es);
              end.Some? && end.value.files == disk.files && end.value.outcomes == map[0 := ok]
    ensures ok <==> target.Named? && f.create && |bytes| <= f.written && f.sync && f.copyMode && f.rename
    ensures ok ==> disk.files == Replaced(old(disk.files), temp, target.path, bytes, f)
    ensures !ok ==> SameElsewhere(old(disk.files), disk.files, temp)
    ensures !ok && target.Named? && f.remove ==> disk.files == old(disk.files) - {temp}
  {
    if target.Nameless? {
      return false, [];
    }
    ghost var s0 := Called(disk.files, t, temp, Request(target, bytes));
    Started(s0, t);
    hide At, Replaced;
    ok, es := Attempt(disk, t, temp, target.path, bytes, f, s0);
    es := Finished(s0, es, disk.files, t, temp, target.path, bytes, ok, f.remove);
    if !ok {
      disk.Remove(temp, f.remove);
    }
  }
}
