/** Names, ghosts (files deleted while open) and lifetimes over whole runs. file_find does not
    skip ghosts, so one at the head of the list hides a live file of its name. */
module UserFsNames {
  import opened Common
  import opened UserFsModel
  import opened UserFsRuns

  // ---- runs ----

  ghost predicate LegalRun(s: Fs, calls: seq<Call>)
    decreases |calls|
  {
    calls != [] ==>
      && WellFormed(s)
      && Legal(s, calls[0])
      && LegalRun(Apply(s, calls[0]).0, calls[1..])
  }

  ghost function After(s: Fs, calls: seq<Call>): Fs
    requires LegalRun(s, calls)
    decreases |calls|
  {
    if calls == [] then s else After(Apply(s, calls[0]).0, calls[1..])
  }

  /** Reference counts, ghosts, positions and slots are in order after every legal run. */
  lemma {:induction false} WellFormedAlways(s: Fs, calls: seq<Call>)
    requires WellFormed(s) && LegalRun(s, calls)
    ensures WellFormed(After(s, calls))
    decreases |calls|
  {
    if calls != [] {
      WellFormedInductive(s, calls[0]);
      WellFormedAlways(Apply(s, calls[0]).0, calls[1..]);
    }
  }

  // ---- lifetimes ----

  /** The calls that free file id: a delete of its name that finds it closed, or the last
      close of a ghost. */
  ghost predicate Frees(s: Fs, call: Call, id: FileId)
    requires WellFormed(s)
  {
    match call
    case DeleteCall(name) => Find(s.order, s.files, name) == Some(id) && s.files[id].refs == 0
    case CloseCall(fd) =>
      ValidFd(s, fd) && s.fds[fd].value.file == id && id in s.files && s.files[id].refs == 1 && s.files[id].isDel
    case _ => false
  }

  /** A file leaves the list exactly at such a call, and only one file per call; a file enters
      it only as the next new identity. */
  lemma FreedExactlyWhen(s: Fs, call: Call, id: FileId)
    requires WellFormed(s) && Legal(s, call) && id < s.nextId
    ensures var s' := Apply(s, call).0;
      && s.nextId <= s'.nextId
      && (id in s'.files <==> id in s.files && !Frees(s, call, id))
  {
    match call
    case OpenCall(name, flags) => ReserveFinds(s);
    case CloseCall(fd) =>
      if ValidFd(s, fd) {
        assert FdOk(s, s.fds[fd]);
      }
    case DeleteCall(name) =>
      var target := Find(s.order, s.files, name);
      if target.Some? {
        assert FileOk(s, target.value);
      }
    case WriteCall(fd, _) => if ValidFd(s, fd) { assert FdOk(s, s.fds[fd]); }
    case ReadCall(fd, _) => if ValidFd(s, fd) { assert FdOk(s, s.fds[fd]); }
  }

  /** How often a run frees file id. */
  ghost function FreeCount(s: Fs, calls: seq<Call>, id: FileId): nat
    requires LegalRun(s, calls)
    decreases |calls|
  {
    if calls == [] then 0
    else (if Frees(s, calls[0], id) && id in s.files then 1 else 0) + FreeCount(Apply(s, calls[0]).0, calls[1..], id)
  }

  /** Over any run a file is freed at most once, and exactly once if and only if it is gone at
      the end: never twice, never leaked, and no identity comes back. */
  lemma {:induction false} FreedOnce(s: Fs, calls: seq<Call>, id: FileId)
    requires WellFormed(s) && LegalRun(s, calls) && id < s.nextId
    ensures FreeCount(s, calls, id) == if id in s.files && id !in After(s, calls).files then 1 else 0
    ensures id !in s.files ==> id !in After(s, calls).files
    decreases |calls|
  {
    if calls != [] {
      var s1 := Apply(s, calls[0]).0;
      FreedExactlyWhen(s, calls[0], id);
      WellFormedInductive(s, calls[0]);
      FreedOnce(s1, calls[1..], id);
    }
  }

  // ---- what a name means ----

  ghost predicate Live(s: Fs, id: FileId, name: string) {
    id in s.files && !s.files[id].isDel && s.files[id].name == name
  }

  ghost predicate Ghost(s: Fs, id: FileId, name: string) {
    id in s.files && s.files[id].isDel && s.files[id].name == name
  }

  /** A file listed before a live file of the same name is a ghost, and the head. */
  ghost predicate PairOk(s: Fs, i: nat, j: nat)
    requires i < j < |s.order|
  {
    var a, b := s.order[i], s.order[j];
    a in s.files && b in s.files && !s.files[b].isDel && s.files[a].name == s.files[b].name ==>
      s.files[a].isDel && i == 0
  }

  /** Each name has at most one live file, and no ghost of a name precedes its live file,
      except at the head. */
  ghost predicate NameMapOk(s: Fs) {
    forall i, j {:trigger PairOk(s, i, j)} :: 0 <= i < j < |s.order| ==> PairOk(s, i, j)
  }

  /** The head is a ghost that hides a live file of its name. */
  ghost predicate Shadowed(s: Fs, name: string) {
    s.order != [] && Ghost(s, s.order[0], name) && exists id :: id in s.order && Live(s, id, name)
  }

  /** The file a name should mean: the live file of that name. */
  ghost function LiveFile(s: Fs, name: string): (r: Option<FileId>)
    ensures r.Some? ==> r.value in s.order && Live(s, r.value, name)
    ensures r.None? ==> forall id :: id in s.order ==> !Live(s, id, name)
  {
    if exists id :: id in s.order && Live(s, id, name)
    then var id :| id in s.order && Live(s, id, name); Some(id)
    else None
  }

  /** Where file_find stops. */
  lemma {:induction false} FindStops(order: seq<FileId>, files: map<FileId, FileRec>, name: string)
    returns (i: nat)
    requires forall id :: id in order ==> id in files
    ensures i <= |order|
    ensures forall k :: 0 <= k < i ==> files[order[k]].name != name
    ensures i < |order| ==> files[order[i]].name == name
    ensures Find(order, files, name) == if i < |order| then Some(order[i]) else None
  {
    if order == [] {
      i := 0;
    } else if files[order[0]].name == name {
      i := 0;
    } else {
      var k := FindStops(order[1..], files, name);
      i := k + 1;
      assert forall k :: 1 <= k < |order| ==> order[k] == order[1..][k - 1];
    }
  }

  /** file_find gives the live file of the name, or a ghost when there is none; only a shadowed
      name makes it give the ghost at the head instead. */
  lemma FindMeansLive(s: Fs, name: string)
    requires WellFormed(s) && NameMapOk(s)
    ensures var found, live := Find(s.order, s.files, name), LiveFile(s, name);
      if Shadowed(s, name) then found == Some(s.order[0]) && live.Some? && live != found
      else found == live || (live.None? && Ghost(s, found.value, name))
  {
    var i := FindStops(s.order, s.files, name);
    var live := LiveFile(s, name);
    if live.Some? {
      var j :| 0 <= j < |s.order| && s.order[j] == live.value;
      assert i <= j;
      if i < j {
        assert PairOk(s, i, j);
      }
    } else if i < |s.order| {
      assert s.order[i] in s.order;
      assert !Live(s, s.order[i], name);
    }
  }

  /** ufs_open acts on the live file of the name, if and only if the name is not shadowed. */
  lemma OpenActsOnLive(s: Fs, name: string, flags: Flags)
    requires WellFormed(s) && NameMapOk(s)
    ensures Open(s, name, flags) == OpenAs(s, LiveFile(s, name), name, flags) <==> !Shadowed(s, name)
  {
    FindMeansLive(s, name);
    ReserveFinds(s);
  }

  /** ufs_delete acts on the live file of the name, if and only if the name is not shadowed. */
  lemma DeleteActsOnLive(s: Fs, name: string)
    requires WellFormed(s) && NameMapOk(s)
    ensures Delete(s, name) == DeleteAs(s, LiveFile(s, name)) <==> !Shadowed(s, name)
  {
    FindMeansLive(s, name);
    var found, live := Find(s.order, s.files, name), LiveFile(s, name);
    if found.Some? && Ghost(s, found.value, name) {
      assert FileOk(s, found.value);
      assert s.files[found.value := s.files[found.value].(isDel := true)] == s.files;
      if live.Some? {
        var s' := DeleteAs(s, live).0;
        assert live.value !in s'.files || s'.files[live.value].isDel;
      }
    }
  }

  // ---- keeping the name map ----

  /** Unlinking keeps the order of the others. */
  lemma {:induction false} WithoutOrder(order: seq<FileId>, id: FileId, i: nat, j: nat) returns (i': nat, j': nat)
    requires i < j < |Without(order, id)|
    ensures i <= i' < j' < |order|
    ensures order[i'] == Without(order, id)[i] && order[j'] == Without(order, id)[j]
  {
    if order[0] == id {
      i', j' := i + 1, j + 1;
    } else if i > 0 {
      i', j' := WithoutOrder(order[1..], id, i - 1, j - 1);
      i', j' := i' + 1, j' + 1;
    } else {
      j' := WithoutMember(order[1..], id, j - 1);
      i', j' := 0, j' + 1;
    }
  }

  lemma {:induction false} WithoutMember(order: seq<FileId>, id: FileId, j: nat) returns (j': nat)
    requires j < |Without(order, id)|
    ensures j' < |order| && order[j'] == Without(order, id)[j]
  {
    if order[0] == id {
      j' := j + 1;
    } else if j == 0 {
      j' := 0;
    } else {
      j' := WithoutMember(order[1..], id, j - 1);
      j' := j' + 1;
    }
  }

  /** Two states whose lists, names and deletion marks agree. */
  ghost predicate SameNames(s: Fs, t: Fs) {
    && s.order == t.order
    && s.files.Keys == t.files.Keys
    && forall id :: id in s.files ==>
      s.files[id].name == t.files[id].name && s.files[id].isDel == t.files[id].isDel
  }

  lemma SameNamesSameMap(s: Fs, t: Fs)
    requires SameNames(s, t)
    ensures NameMapOk(s) <==> NameMapOk(t)
  {
    assert forall i, j :: 0 <= i < j < |s.order| ==> PairOk(s, i, j) == PairOk(t, i, j);
  }

  lemma FreeKeepsNames(s: Fs, id: FileId)
    requires id in s.files && NameMapOk(s)
    ensures NameMapOk(FreeFile(s, id))
  {
    var s' := FreeFile(s, id);
    if s.files[id].refs <= 0 {
      forall i, j | 0 <= i < j < |s'.order| ensures PairOk(s', i, j) {
        var i', j' := WithoutOrder(s.order, id, i, j);
        assert PairOk(s, i', j');
      }
    }
  }

  /** A new file behind the head keeps the map exactly when the name has no live file yet. */
  lemma CreateKeepsNames(s: Fs, name: string)
    requires WellFormed(s) && NameMapOk(s)
    ensures NameMapOk(Create(s, name)) <==> LiveFile(s, name).None?
  {
    var s' := Create(s, name);
    var id := s.nextId;
    assert id in s.files ==> FileOk(s, id);
    if LiveFile(s, name).None? {
      forall i, j | 0 <= i < j < |s'.order| ensures PairOk(s', i, j) {
        CreatePair(s, name, i, j);
      }
    } else {
      var live := LiveFile(s, name).value;
      var k :| 0 <= k < |s.order| && s.order[k] == live;
      assert s'.order[1] == id;
      if k == 0 {
        assert s'.order[0] == live;
        assert !PairOk(s', 0, 1);
      } else {
        assert s'.order[k + 1] == live;
        assert !PairOk(s', 1, k + 1);
      }
    }
  }

  lemma CreatePair(s: Fs, name: string, i: nat, j: nat)
    requires Listed(s) && NameMapOk(s) && LiveFile(s, name).None? && s.nextId !in s.files
    requires i < j < |Create(s, name).order|
    ensures PairOk(Create(s, name), i, j)
  {
    var s' := Create(s, name);
    var order := s.order;
    assert order != [];
    var i' := if i <= 1 then 0 else i - 1;
    if j == 1 || i == 1 {
      var k := if j == 1 then 0 else j - 1;
      assert s'.order[if j == 1 then 0 else j] == order[k] && order[k] in order;
      assert !Live(s, order[k], name);
    } else {
      assert s'.order[j] == order[j - 1] && s'.order[i] == order[i'];
      assert order[j - 1] in order && order[i'] in order;
      assert PairOk(s, i', j - 1);
    }
  }

  /** What ufs_open does to list, names and marks: nothing, or a new file. */
  lemma OpenNames(s: Fs, name: string, flags: Flags)
    requires WellFormed(s)
    ensures var found := Find(s.order, s.files, name);
      var creates := flags.create && (found.None? || s.files[found.value].isDel);
      SameNames(if creates then Create(s, name) else s, Open(s, name, flags).0)
  {
    ReserveFinds(s);
  }

  lemma OpenKeepsNames(s: Fs, name: string, flags: Flags)
    requires WellFormed(s) && NameMapOk(s)
    ensures NameMapOk(Open(s, name, flags).0) <==> !(flags.create && Shadowed(s, name))
  {
    FindMeansLive(s, name);
    OpenNames(s, name, flags);
    CreateKeepsNames(s, name);
    var s' := Open(s, name, flags).0;
    var found := Find(s.order, s.files, name);
    if flags.create && (found.None? || s.files[found.value].isDel) {
      SameNamesSameMap(Create(s, name), s');
    } else {
      SameNamesSameMap(s, s');
    }
  }

  lemma DeleteKeepsNames(s: Fs, name: string)
    requires WellFormed(s) && NameMapOk(s)
    ensures NameMapOk(Delete(s, name).0)
  {
    var target := Find(s.order, s.files, name);
    if target.Some? {
      var id := target.value;
      var i := FindStops(s.order, s.files, name);
      var s1 := s.(files := s.files[id := s.files[id].(isDel := true)]);
      forall k, j | 0 <= k < j < |s1.order| ensures PairOk(s1, k, j) {
        assert PairOk(s, k, j);
        // No live file of the name is left behind the one found.
        assert i < j ==> PairOk(s, i, j);
      }
      FreeKeepsNames(s1, id);
    }
  }

  lemma CloseKeepsNames(s: Fs, fd: int)
    requires WellFormed(s) && NameMapOk(s) && LegalFd(s, fd) && ValidFd(s, fd)
    ensures s.fds[fd].value.file in s.files
    ensures NameMapOk(Close(s, fd).0)
  {
    CloseKeeps(s, fd);
    var id := s.fds[fd].value.file;
    var s1 := s.(files := s.files[id := s.files[id].(refs := s.files[id].refs - 1)],
                 fds := s.fds[fd := None], count := s.count - 1);
    SameNamesSameMap(s, s1);
    var s' := Close(s, fd).0;
    if s1.files[id].refs == 0 && s1.files[id].isDel {
      assert s' == FreeFile(s1, id);
      FreeKeepsNames(s1, id);
    } else {
      assert s' == s1;
    }
  }

  /** The name map survives a call if and only if the call does not create a file under a
      shadowed name. */
  lemma NameMapKept(s: Fs, call: Call)
    requires WellFormed(s) && NameMapOk(s) && Legal(s, call)
    ensures NameMapOk(Apply(s, call).0) <==> !(call.OpenCall? && call.flags.create && Shadowed(s, call.name))
  {
    var s' := Apply(s, call).0;
    match call
    case OpenCall(name, flags) => OpenKeepsNames(s, name, flags);
    case CloseCall(fd) =>
      if ValidFd(s, fd) { CloseKeepsNames(s, fd); } else { SameNamesSameMap(s, s'); }
    case DeleteCall(name) => DeleteKeepsNames(s, name);
    case WriteCall(fd, buf) =>
      if ValidFd(s, fd) { assert FdOk(s, s.fds[fd]); }
      SameNamesSameMap(s, s');
    case ReadCall(fd, size) => SameNamesSameMap(s, s');
  }

  /** Runs that never create a file under a shadowed name. */
  ghost predicate CarefulRun(s: Fs, calls: seq<Call>)
    requires LegalRun(s, calls)
    decreases |calls|
  {
    calls != [] ==>
      && !(calls[0].OpenCall? && calls[0].flags.create && Shadowed(s, calls[0].name))
      && CarefulRun(Apply(s, calls[0]).0, calls[1..])
  }

  /** After every careful run each name has at most one live file, and open and delete act on
      it unless it is shadowed. */
  lemma {:induction false} NamesAlways(s: Fs, calls: seq<Call>)
    requires WellFormed(s) && NameMapOk(s) && LegalRun(s, calls) && CarefulRun(s, calls)
    ensures WellFormed(After(s, calls)) && NameMapOk(After(s, calls))
    decreases |calls|
  {
    if calls != [] {
      NameMapKept(s, calls[0]);
      WellFormedInductive(s, calls[0]);
      NamesAlways(Apply(s, calls[0]).0, calls[1..]);
    }
  }

  /** The same for everything that starts with no files: in every careful run open acts on the
      one live file of its name, if and only if the name is not shadowed. */
  lemma NamesFromTheStart(calls: seq<Call>, name: string, flags: Flags)
    requires LegalRun(EMPTY, calls) && CarefulRun(EMPTY, calls)
    ensures var s := After(EMPTY, calls);
      && WellFormed(s) && NameMapOk(s)
      && (Open(s, name, flags) == OpenAs(s, LiveFile(s, name), name, flags) <==> !Shadowed(s, name))
      && (Delete(s, name) == DeleteAs(s, LiveFile(s, name)) <==> !Shadowed(s, name))
  {
    hide Open, Delete, OpenAs, DeleteAs, Shadowed;
    NamesAlways(EMPTY, calls);
    OpenActsOnLive(After(EMPTY, calls), name, flags);
    DeleteActsOnLive(After(EMPTY, calls), name);
  }

  // ---- deleting and creating again ----

  /** Nothing but the mark of deletion changes for the files that descriptors hold. */
  ghost predicate HeldFilesKept(s: Fs, t: Fs) {
    forall i :: 0 <= i < |s.fds| && s.fds[i].Some? ==> HeldFileKept(s, t, s.fds[i].value.file)
  }

  ghost predicate HeldFileKept(s: Fs, t: Fs, id: FileId) {
    id in s.files && id in t.files && t.files[id] == s.files[id].(isDel := t.files[id].isDel)
  }

  lemma DeleteKeepsHeld(s: Fs, name: string)
    requires WellFormed(s)
    ensures HeldFilesKept(s, Delete(s, name).0)
  {
    var s1 := Delete(s, name).0;
    forall i | 0 <= i < |s.fds| && s.fds[i].Some? ensures HeldFileKept(s, s1, s.fds[i].value.file) {
      assert FdOk(s, s.fds[i]);
      assert FileOk(s, s.fds[i].value.file);
      RefsPositive(s.fds, i, s.fds[i].value.file);
    }
  }

  /** Opening a name without a live file: a new empty file on the lowest free slot. */
  lemma OpenCreates(s: Fs, name: string, flags: Flags)
    requires WellFormed(s) && flags.create
    requires var found := Find(s.order, s.files, name); found.Some? ==> s.files[found.value].isDel
    ensures var (t, ret) := Open(s, name, flags);
      && 0 <= ret.value < |t.fds|
      && t.fds[ret.value] == Some(Fd(s.nextId, 0, ModeOf(flags)))
      && t.files == s.files[s.nextId := FileRec(name, 1, false, [])]
      && t.order == Insert(s.order, s.nextId)
      && |s.fds| <= |t.fds|
      && (forall i :: 0 <= i < |s.fds| && s.fds[i].Some? ==> i != ret.value && t.fds[i] == s.fds[i])
  {
    ReserveFinds(s);
    var s1 := Reserve(s);
    var fd := FirstFree(s1.fds);
    assert forall i :: 0 <= i < |s.fds| ==> s1.fds[i] == s.fds[i];
  }

  /** The header's promise (userfs.h, lines 128-133): after a delete, creating the name again
      gives a new empty file, and leaves every open file and every descriptor alone. */
  lemma RecreateIsFresh(s: Fs, name: string, flags: Flags)
    requires WellFormed(s) && NameMapOk(s) && flags.create
    ensures WellFormed(Delete(s, name).0)
    ensures
      var (t, ret) := Open(Delete(s, name).0, name, flags);
      && 0 <= ret.value < |t.fds|
      && t.fds[ret.value] == Some(Fd(s.nextId, 0, ModeOf(flags)))
      && s.nextId in t.files && t.files[s.nextId] == FileRec(name, 1, false, [])
      && |s.fds| <= |t.fds|
      && (forall i :: 0 <= i < |s.fds| && s.fds[i].Some? ==> i != ret.value && t.fds[i] == s.fds[i])
      && HeldFilesKept(s, t)
  {
    var s1 := Delete(s, name).0;
    if Shadowed(s, name) {
      DeleteOfGhost(s, name);
    } else {
      DeleteHides(s, name);
    }
    DeleteKeepsHeld(s, name);
    OpenCreates(s1, name, flags);
    var t := Open(s1, name, flags).0;
    assert s1.nextId == s.nextId && s1.fds == s.fds;
    forall i | 0 <= i < |s.fds| && s.fds[i].Some? ensures HeldFileKept(s, t, s.fds[i].value.file) {
      assert HeldFileKept(s, s1, s.fds[i].value.file);
      assert FileOk(s, s.fds[i].value.file);
    }
  }

  /** Deleting a name that the search takes to be a ghost changes nothing. */
  lemma DeleteOfGhost(s: Fs, name: string)
    requires WellFormed(s)
    requires var found := Find(s.order, s.files, name); found.Some? && Ghost(s, found.value, name)
    ensures Delete(s, name).0 == s
  {
    var id := Find(s.order, s.files, name).value;
    assert FileOk(s, id);
    assert s.files[id := s.files[id].(isDel := true)] == s.files;
  }

  lemma OneLive(s: Fs, x: FileId, y: FileId, name: string)
    requires NameMapOk(s) && x in s.order && y in s.order && Live(s, x, name) && Live(s, y, name)
    ensures x == y
  {
    var i :| 0 <= i < |s.order| && s.order[i] == x;
    var j :| 0 <= j < |s.order| && s.order[j] == y;
    assert i != j ==> PairOk(s, Min(i, j), Max(i, j));
  }

  /** After an unshadowed delete the name has no live file. */
  lemma DeleteHides(s: Fs, name: string)
    requires WellFormed(s) && NameMapOk(s) && !Shadowed(s, name)
    ensures WellFormed(Delete(s, name).0) && NameMapOk(Delete(s, name).0)
    ensures forall id :: id in Delete(s, name).0.order ==> !Live(Delete(s, name).0, id, name)
    ensures var found := Find(Delete(s, name).0.order, Delete(s, name).0.files, name);
      found.Some? ==> Ghost(Delete(s, name).0, found.value, name)
  {
    DeleteKeeps(s, Find(s.order, s.files, name));
    DeleteKeepsNames(s, name);
    FindMeansLive(s, name);
    var s1 := Delete(s, name).0;
    forall id | id in s1.order ensures !Live(s1, id, name) {
      if Live(s1, id, name) {
        assert Live(s, id, name);
        OneLive(s, id, LiveFile(s, name).value, name);
      }
    }
    var k := FindStops(s1.order, s1.files, name);
    if k < |s1.order| { assert s1.order[k] in s1.order; }
  }

  ghost predicate GhostHead(s: Fs, name: string) {
    s.order != [] && Ghost(s, s.order[0], name)
  }

  /** The head is a ghost of the name, or it is the live file and the new head will be a ghost
      of the name: the file itself, if it is still open, or the ghost that was listed second. */
  ghost predicate LeavesGhostHead(s: Fs, name: string)
    requires WellFormed(s)
  {
    || GhostHead(s, name)
    || (&& s.order != []
        && LiveFile(s, name) == Some(s.order[0])
        && (s.files[s.order[0]].refs > 0 || (|s.order| > 1 && Ghost(s, s.order[1], name))))
  }

  /** Whether the name then means the new file: if and only if the delete does not leave a
      ghost of the name at the head. */
  lemma RecreateIsFoundIff(s: Fs, name: string, flags: Flags)
    requires WellFormed(s) && NameMapOk(s) && flags.create
    ensures WellFormed(Delete(s, name).0)
    ensures
      var s2 := Open(Delete(s, name).0, name, flags).0;
      && WellFormed(s2)
      && (Find(s2.order, s2.files, name) == Some(s.nextId) <==> !LeavesGhostHead(s, name))
  {
    hide NameMapOk, Open, LeavesGhostHead, Find, Delete;
    if GhostHead(s, name) {
      GhostHeadStays(s, name, flags);
    } else {
      DeleteHides(s, name);
      CreatesOver(Delete(s, name).0, name, flags);
      NewGhostHead(s, name);
    }
  }

  /** Behind a ghost head nothing is found. */
  lemma GhostHeadStays(s: Fs, name: string, flags: Flags)
    requires WellFormed(s) && GhostHead(s, name) && flags.create
    ensures Delete(s, name).0 == s && LeavesGhostHead(s, name)
    ensures var t := Open(s, name, flags).0;
      WellFormed(t) && Find(t.order, t.files, name) == Some(s.order[0]) && s.order[0] != s.nextId
  {
    hide OpenAs;
    DeleteOfGhost(s, name);
    OpenCreates(s, name, flags);
    OpenKeeps(s, Some(s.order[0]), name, flags);
    assert FileOk(s, s.order[0]);
  }

  /** Creating a name that has no live file: it is found afterwards, if and only if no ghost of
      the name is the head. */
  lemma CreatesOver(s: Fs, name: string, flags: Flags)
    requires WellFormed(s) && NameMapOk(s) && flags.create
    requires forall id :: id in s.order ==> !Live(s, id, name)
    requires var found := Find(s.order, s.files, name); found.Some? ==> Ghost(s, found.value, name)
    ensures WellFormed(Open(s, name, flags).0)
    ensures var t := Open(s, name, flags).0;
      Find(t.order, t.files, name) == Some(s.nextId) <==> !GhostHead(s, name)
  {
    hide NameMapOk, OpenAs;
    var t := Open(s, name, flags).0;
    OpenCreates(s, name, flags);
    OpenKeeps(s, Find(s.order, s.files, name), name, flags);
    OpenKeepsNames(s, name, flags);
    assert s.nextId in s.files ==> FileOk(s, s.nextId);
    InsertKeeps(s.order, s.nextId);
    forall id | id in t.order && id != s.nextId ensures !Live(t, id, name) {
      assert !Live(s, id, name);
    }
    assert Live(t, s.nextId, name);
    FindMeansLive(t, name);
  }

  lemma NewGhostHead(s: Fs, name: string)
    requires WellFormed(s) && NameMapOk(s) && !GhostHead(s, name)
    ensures GhostHead(Delete(s, name).0, name) <==> LeavesGhostHead(s, name)
    ensures Delete(s, name).0.nextId == s.nextId
  {
    FindMeansLive(s, name);
    if LiveFile(s, name).Some? {
      var live := LiveFile(s, name).value;
      assert FileOk(s, live);
      if s.files[live].refs <= 0 {
        WithoutKeeps(s.order, live);
      }
    } else if Find(s.order, s.files, name).Some? {
      DeleteOfGhost(s, name);
    }
  }

  // ---- the promise fails behind a ghost head ----

  const CREATE: Flags := Flags(true, false, false, false)
  const PLAIN: Flags := Flags(false, false, false, false)

  /** Create and keep open, delete, create again: a plain open of the name then fails, although
      a live file has it. */
  lemma ShadowingIsReachable()
    ensures
      var calls := [OpenCall("a", CREATE), DeleteCall("a"), OpenCall("a", CREATE)];
      && LegalRun(EMPTY, calls)
      && var s := After(EMPTY, calls);
      && WellFormed(s) && NameMapOk(s) && Shadowed(s, "a") && Live(s, 1, "a")
      && Open(s, "a", PLAIN).1 == Ret(-1, [])
  {
    hide NameMapOk, Open, Delete, LegalRun, After;
    var c0, c1, c2 := OpenCall("a", CREATE), DeleteCall("a"), OpenCall("a", CREATE);
    FirstOpen();
    var s1 := Apply(EMPTY, c0).0;
    OpenDeleted(s1);
    var s2 := Apply(s1, c1).0;
    OpenAgain(s2);
    RunNil(Apply(s2, c2).0);
    RunCons(s2, c2, []);
    RunCons(s1, c1, [c2] + []);
    RunCons(EMPTY, c0, [c1] + ([c2] + []));
    assert [c0, c1, c2] == [c0] + ([c1] + ([c2] + []));
  }

  lemma RunNil(s: Fs)
    ensures LegalRun(s, []) && After(s, []) == s
  {
  }

  lemma RunCons(s: Fs, call: Call, rest: seq<Call>)
    requires WellFormed(s) && Legal(s, call) && LegalRun(Apply(s, call).0, rest)
    ensures LegalRun(s, [call] + rest) && After(s, [call] + rest) == After(Apply(s, call).0, rest)
  {
    assert ([call] + rest)[1..] == rest;
  }

  lemma FirstOpen()
    ensures var s := Open(EMPTY, "a", CREATE).0;
      && WellFormed(s) && NameMapOk(s)
      && s.order == [0] && s.files == map[0 := FileRec("a", 1, false, [])] && s.nextId == 1
  {
    OpenKeeps(EMPTY, None, "a", CREATE);
    ReserveFinds(EMPTY);
  }

  lemma OpenDeleted(s: Fs)
    requires WellFormed(s) && NameMapOk(s)
    requires s.order == [0] && s.files == map[0 := FileRec("a", 1, false, [])] && s.nextId == 1
    ensures var t := Delete(s, "a").0;
      && WellFormed(t) && NameMapOk(t)
      && t.order == [0] && t.files == map[0 := FileRec("a", 1, true, [])] && t.nextId == 1
  {
    DeleteKeeps(s, Find(s.order, s.files, "a"));
    DeleteKeepsNames(s, "a");
  }

  lemma OpenAgain(s: Fs)
    requires WellFormed(s) && NameMapOk(s)
    requires s.order == [0] && s.files == map[0 := FileRec("a", 1, true, [])] && s.nextId == 1
    ensures var t := Open(s, "a", CREATE).0;
      && WellFormed(t) && NameMapOk(t) && Shadowed(t, "a") && Live(t, 1, "a")
      && Open(t, "a", PLAIN).1 == Ret(-1, [])
  {
    assert !Live(s, 0, "a");
    var found := Find(s.order, s.files, "a");
    assert found == Some(0);
    OpenKeeps(s, found, "a", CREATE);
    OpenKeepsNames(s, "a", CREATE);
    OpenCreates(s, "a", CREATE);
    var t := Open(s, "a", CREATE).0;
    assert t.order == [0, 1];
    assert Live(t, 1, "a") && Ghost(t, 0, "a");
    ReserveFinds(t);
  }
}
