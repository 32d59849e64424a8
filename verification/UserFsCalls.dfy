/** When a call is refused, what it changes, and what calls in a row add up to. */
module UserFsCalls {
  import opened Common
  import opened UserFsModel
  import opened UserFsRuns
  import opened UserFsNames

  // ---- one call ----

  /** The call changed at most the error code. */
  predicate Refused(s: Fs, t: Fs, ret: Ret, error: Error) {
    ret == Ret(-1, []) && t == s.(errno := error)
  }

  /** From s to t the descriptor fd moved to pos, and no other descriptor changed. */
  ghost predicate Moved(s: Fs, t: Fs, fd: int, pos: int)
    requires ValidFd(s, fd)
  {
    && |t.fds| == |s.fds| && t.fds[fd] == Some(Fd(s.fds[fd].value.file, pos, s.fds[fd].value.mode))
    && (forall i :: 0 <= i < |s.fds| && i != fd ==> t.fds[i] == s.fds[i])
    && t.count == s.count && t.errno == s.errno && t.order == s.order && t.nextId == s.nextId
  }

  /** Files other than id are as before. */
  ghost predicate OthersKept(s: Fs, t: Fs, id: FileId) {
    forall x: FileId :: x != id ==> (if x in s.files then x in t.files && t.files[x] == s.files[x] else x !in t.files)
  }

  /** `after` has the bytes of buf from pos on, and those of `before` elsewhere. */
  ghost predicate Overwritten(before: seq<byte>, after: seq<byte>, pos: int, buf: seq<byte>) {
    && 0 <= pos <= |before| && |after| == Max(|before|, pos + |buf|)
    && forall k :: 0 <= k < |after| ==> after[k] == if pos <= k < pos + |buf| then buf[k - pos] else before[k]
  }

  /** A write is refused exactly for a bad descriptor, one opened for reading only, or an end
      behind 100 megabytes; else the bytes lie where the descriptor stood, the rest of the
      file is as it was, and the descriptor stands behind them. */
  lemma WriteOutcome(s: Fs, fd: int, buf: seq<byte>)
    requires WellFormed(s) && LegalFd(s, fd)
    ensures 0 <= fd < |s.fds| ==> FdOk(s, s.fds[fd])
    ensures var (t, ret) := Write(s, fd, buf);
      if fd < 0 || fd > |s.fds| || s.fds[fd].None? then Refused(s, t, ret, NoFile)
      else if s.fds[fd].value.mode == ReadOnly then Refused(s, t, ret, NoPermission)
      else
        var d := s.fds[fd].value;
        if d.pos + |buf| > 104_857_600 then Refused(s, t, ret, NoMem)
        else
          && ret == Ret(|buf|, []) && Moved(s, t, fd, d.pos + |buf|) && OthersKept(s, t, d.file)
          && d.file in t.files && t.files[d.file] == s.files[d.file].(content := t.files[d.file].content)
          && Overwritten(s.files[d.file].content, t.files[d.file].content, d.pos, buf)
  {
    if 0 <= fd < |s.fds| {
      assert FdOk(s, s.fds[fd]);
    }
  }

  /** A read is refused exactly for a bad descriptor or one opened for writing only; else it
      returns the bytes from where the descriptor stands up to the size or the end of the
      file, the descriptor stands behind them, and nothing else changes. */
  lemma ReadOutcome(s: Fs, fd: int, size: nat)
    requires WellFormed(s) && LegalFd(s, fd)
    ensures 0 <= fd < |s.fds| ==> FdOk(s, s.fds[fd])
    ensures var (t, ret) := Read(s, fd, size);
      if fd < 0 || fd > |s.fds| || s.fds[fd].None? then Refused(s, t, ret, NoFile)
      else if s.fds[fd].value.mode == WriteOnly then Refused(s, t, ret, NoPermission)
      else
        var d := s.fds[fd].value;
        var content := s.files[d.file].content;
        && 0 <= ret.value == |ret.data| && t.files == s.files
        && d.pos + ret.value == Min(d.pos + size, |content|)
        && Moved(s, t, fd, d.pos + ret.value)
        && forall k :: 0 <= k < ret.value ==> ret.data[k] == content[d.pos + k]
  {
    if 0 <= fd < |s.fds| {
      assert FdOk(s, s.fds[fd]);
    }
  }

  // ---- reads in a row ----

  predicate Readable(s: Fs, fd: int) {
    ValidFd(s, fd) && s.fds[fd].value.mode != WriteOnly
  }

  /** Reading two pieces one after the other is reading them at once. */
  lemma ReadInPieces(s: Fs, fd: int, m: nat, n: nat)
    requires WellFormed(s) && Readable(s, fd)
    ensures FdOk(s, s.fds[fd])
    ensures var (t, first) := Read(s, fd, m);
      && WellFormed(t) && Readable(t, fd) && FdOk(t, t.fds[fd])
      && var (u, second) := Read(t, fd, n);
         Read(s, fd, m + n) == (u, Ret(first.value + second.value, first.data + second.data))
  {
    assert FdOk(s, s.fds[fd]);
    ReadKeeps(s, fd, m);
    var t := Read(s, fd, m).0;
    assert FdOk(t, t.fds[fd]);
    var d, content := s.fds[fd].value, s.files[s.fds[fd].value.file].content;
    var a, b := Min(m, |content| - d.pos), Min(m + n, |content| - d.pos);
    assert content[d.pos..d.pos + b] == content[d.pos..d.pos + a] + content[d.pos + a..d.pos + b];
    assert Read(t, fd, n).0.fds == Read(s, fd, m + n).0.fds;
  }

  /** What reads of these sizes return, one behind the other. */
  ghost function ReadOn(s: Fs, fd: int, sizes: seq<nat>): seq<byte>
    requires WellFormed(s) && Readable(s, fd)
    decreases |sizes|
  {
    if sizes == [] then []
    else
      ReadInPieces(s, fd, sizes[0], 0);
      var (t, ret) := Read(s, fd, sizes[0]);
      ret.data + ReadOn(t, fd, sizes[1..])
  }

  function Sum(sizes: seq<nat>): nat {
    if sizes == [] then 0 else sizes[0] + Sum(sizes[1..])
  }

  /** However a file is read in pieces, they are its bytes in order, without a gap. */
  lemma {:induction false} ReadsAddUp(s: Fs, fd: int, sizes: seq<nat>)
    requires WellFormed(s) && Readable(s, fd)
    ensures FdOk(s, s.fds[fd])
    ensures var d := s.fds[fd].value; var content := s.files[d.file].content;
      ReadOn(s, fd, sizes) == content[d.pos..Min(d.pos + Sum(sizes), |content|)]
    decreases |sizes|
  {
    hide Read;
    assert FdOk(s, s.fds[fd]);
    if sizes != [] {
      ReadOutcome(s, fd, sizes[0]);
      ReadInPieces(s, fd, sizes[0], 0);
      var (t, ret) := Read(s, fd, sizes[0]);
      ReadsAddUp(t, fd, sizes[1..]);
      var d := s.fds[fd].value;
      var content := s.files[d.file].content;
      var middle, end := d.pos + ret.value, Min(d.pos + Sum(sizes), |content|);
      assert ret.data == content[d.pos..middle];
      assert content[d.pos..end] == content[d.pos..middle] + content[middle..end];
    }
  }

  /** Read again and again, until a read returns nothing. */
  ghost function ReadToEnd(s: Fs, fd: int, size: nat): seq<byte>
    requires WellFormed(s) && Readable(s, fd) && size > 0
    decreases ReadToEndLeft(s, fd)
  {
    ReadInPieces(s, fd, size, 0);
    var (t, ret) := Read(s, fd, size);
    if ret.value == 0 then [] else ret.data + ReadToEnd(t, fd, size)
  }

  ghost function ReadToEndLeft(s: Fs, fd: int): nat
    requires WellFormed(s) && Readable(s, fd)
  {
    assert FdOk(s, s.fds[fd]);
    |s.files[s.fds[fd].value.file].content| - s.fds[fd].value.pos
  }

  /** Reading until nothing comes yields everything from the descriptor's position on: from 0
      the whole content. */
  lemma {:induction false} ReadToEndIsAll(s: Fs, fd: int, size: nat)
    requires WellFormed(s) && Readable(s, fd) && size > 0
    ensures FdOk(s, s.fds[fd])
    ensures ReadToEnd(s, fd, size) == s.files[s.fds[fd].value.file].content[s.fds[fd].value.pos..]
    decreases ReadToEndLeft(s, fd)
  {
    assert FdOk(s, s.fds[fd]);
    ReadOutcome(s, fd, size);
    ReadInPieces(s, fd, size, 0);
    var (t, ret) := Read(s, fd, size);
    var d := s.fds[fd].value;
    var content := s.files[d.file].content;
    assert ret.data == content[d.pos..d.pos + ret.value];
    if ret.value > 0 {
      ReadToEndIsAll(t, fd, size);
      assert content[d.pos..] == content[d.pos..d.pos + ret.value] + content[d.pos + ret.value..];
    }
  }
  // ---- opening, closing, deleting ----

  /** The slot that opening takes: the lowest free one, in the array or behind its end. */
  predicate LowestFree(fds: seq<Option<Fd>>, fd: int) {
    0 <= fd <= |fds| && (fd < |fds| ==> fds[fd].None?) && forall i :: 0 <= i < fd ==> fds[i].Some?
  }

  /** The array of s with fd in it now. */
  ghost predicate SlotTaken(s: Fs, t: Fs, fd: int, d: Option<Fd>) {
    && 0 <= fd < |t.fds| && |s.fds| <= |t.fds| && t.fds[fd] == d
    && forall i :: 0 <= i < |t.fds| && i != fd ==> t.fds[i] == if i < |s.fds| then s.fds[i] else None
  }

  lemma ReserveSlot(s: Fs)
    requires WellFormed(s)
    ensures var s1 := Reserve(s); var fd := FirstFree(s1.fds);
      && fd < |s1.fds| && LowestFree(s.fds, fd) && SlotTaken(s, s1, fd, None)
      && s1 == s.(fds := s1.fds, count := s.count + 1)
  {
    ReserveFinds(s);
    var s1 := Reserve(s);
    assert |s.fds| < |s1.fds| ==> s1.fds[|s.fds|].None?;
  }

  /** Whether there is a file to open, and which one a successful call opens. */
  predicate NothingToOpen(s: Fs, name: string)
    requires Listed(s)
  {
    var found := Find(s.order, s.files, name); found.None? || s.files[found.value].isDel
  }

  function OpenedFile(s: Fs, name: string): FileId
    requires Listed(s)
  {
    if NothingToOpen(s, name) then s.nextId else Find(s.order, s.files, name).value
  }

  /** Opening is refused exactly when there is no file to open and none is to be created; then
      only the counter, and perhaps the capacity, of the descriptors has grown. */
  lemma OpenRefused(s: Fs, name: string, flags: Flags)
    requires WellFormed(s)
    ensures var (t, ret) := Open(s, name, flags);
      && (ret.value < 0 <==> NothingToOpen(s, name) && !flags.create)
      && (ret.value < 0 ==>
            && ret == Ret(-1, []) && t == s.(fds := t.fds, count := s.count + 1, errno := NoFile)
            && s.fds <= t.fds && forall i :: |s.fds| <= i < |t.fds| ==> t.fds[i].None?)
  {
    ReserveFinds(s);
  }

  /** Else the lowest free slot gets a descriptor at position 0 of the file found, or of a new
      empty one, with the rights asked for; the file counts one descriptor more. */
  lemma OpenOutcome(s: Fs, name: string, flags: Flags)
    requires WellFormed(s) && !(NothingToOpen(s, name) && !flags.create)
    ensures var (t, ret) := Open(s, name, flags); var id := OpenedFile(s, name);
      var mode := if flags.readOnly then ReadOnly else if flags.writeOnly then WriteOnly else ReadWrite;
      && ret == Ret(ret.value, []) && LowestFree(s.fds, ret.value)
      && SlotTaken(s, t, ret.value, Some(Fd(id, 0, mode)))
      && OthersKept(s, t, id) && id in t.files
      && t.count == s.count + 1 && t.errno == s.errno
      && if NothingToOpen(s, name) then t.files[id] == FileRec(name, 1, false, [])
         else t.files[id] == s.files[id].(refs := s.files[id].refs + 1) && t.order == s.order && t.nextId == s.nextId
  {
    hide Reserve, FirstFree, WellFormed, LowestFree, Find;
    IdIsNew(s);
    ReserveSlot(s);
  }

  lemma IdIsNew(s: Fs)
    requires WellFormed(s)
    ensures s.nextId !in s.files && Listed(s)
  {
    assert s.nextId in s.files ==> FileOk(s, s.nextId);
  }

  /** Closing is refused exactly for a bad descriptor. Else the slot is free, the file counts
      one descriptor less, and is gone exactly if it was deleted and this was the last one. */
  lemma CloseOutcome(s: Fs, fd: int)
    requires WellFormed(s) && LegalFd(s, fd)
    ensures 0 <= fd < |s.fds| && s.fds[fd].Some? ==> s.fds[fd].value.file in s.files
    ensures var (t, ret) := Close(s, fd);
      if fd < 0 || fd > |s.fds| || s.fds[fd].None? then Refused(s, t, ret, NoFile)
      else
        var id := s.fds[fd].value.file;
        && ret == Ret(0, []) && SlotTaken(s, t, fd, None) && |t.fds| == |s.fds| && OthersKept(s, t, id)
        && t.count == s.count - 1 && t.errno == s.errno && t.nextId == s.nextId
        && (id in t.files <==> !(s.files[id].isDel && s.files[id].refs == 1))
        && (id in t.files ==> t.files[id] == s.files[id].(refs := s.files[id].refs - 1) && t.order == s.order)
  {
    if 0 <= fd < |s.fds| {
      assert FdOk(s, s.fds[fd]);
    }
  }

  /** Deleting always returns 0 and touches no descriptor. The file found is gone if nobody has
      it open, and marked as deleted if somebody has; with no file found nothing changes. */
  lemma DeleteOutcome(s: Fs, name: string)
    requires WellFormed(s)
    ensures var (t, ret) := Delete(s, name); var found := Find(s.order, s.files, name);
      && ret == Ret(0, []) && t.fds == s.fds && t.count == s.count && t.errno == s.errno && t.nextId == s.nextId
      && if found.None? then t == s
         else
           var id := found.value;
           && OthersKept(s, t, id)
           && (id in t.files <==> s.files[id].refs > 0)
           && (id in t.files ==> t.files[id] == s.files[id].(isDel := true) && t.order == s.order)
  {
  }

  // ---- rights ----

  /** A descriptor can be written unless it was opened for reading only, and read unless it
      was opened for writing only; asking for both rights alone gives reading. */
  lemma OpenedRights(s: Fs, name: string, flags: Flags, buf: seq<byte>, size: nat)
    requires WellFormed(s) && |buf| <= MAX_FILE_SIZE
    requires Open(s, name, flags).1.value >= 0
    ensures var (t, ret) := Open(s, name, flags);
      && WellFormed(t) && ret.value < |t.fds| && FdOk(t, t.fds[ret.value])
      && (Write(t, ret.value, buf).1.value == -1 <==> flags.readOnly)
      && (Read(t, ret.value, size).1.value == -1 <==> flags.writeOnly && !flags.readOnly)
  {
    hide Open, Write, Read;
    OpenRefused(s, name, flags);
    OpenOutcome(s, name, flags);
    OpenWellFormed(s, name, flags);
    var (t, ret) := Open(s, name, flags);
    assert FdOk(t, t.fds[ret.value]);
    WriteOutcome(t, ret.value, buf);
    ReadOutcome(t, ret.value, size);
  }

  lemma OpenWellFormed(s: Fs, name: string, flags: Flags)
    requires WellFormed(s)
    ensures WellFormed(Open(s, name, flags).0)
  {
    OpenKeeps(s, Find(s.order, s.files, name), name, flags);
  }

  // ---- what was written is there when the file is opened again ----

  /** The search depends on nothing but the order and the names. */
  lemma {:induction false} FindSame(order: seq<FileId>, a: map<FileId, FileRec>, b: map<FileId, FileRec>, name: string)
    requires forall id :: id in order ==> id in a && id in b && a[id].name == b[id].name
    ensures Find(order, a, name) == Find(order, b, name)
  {
    if order != [] {
      FindSame(order[1..], a, b, name);
    }
  }

  /** fd writes data into the file id, which keeps its name, and is closed. */
  lemma WriteThenClose(s: Fs, fd: int, name: string, data: seq<byte>)
    requires WellFormed(s) && ValidFd(s, fd) && s.fds[fd].value.pos == 0 && s.fds[fd].value.mode != ReadOnly
    requires |data| <= MAX_FILE_SIZE
    requires Find(s.order, s.files, name) == Some(s.fds[fd].value.file)
    requires s.files[s.fds[fd].value.file] == FileRec(name, 1, false, [])
    ensures FdOk(s, s.fds[fd]) && WellFormed(Write(s, fd, data).0)
    ensures ValidFd(Write(s, fd, data).0, fd) && FdOk(Write(s, fd, data).0, Write(s, fd, data).0.fds[fd])
    ensures var t := Close(Write(s, fd, data).0, fd).0; var id := s.fds[fd].value.file;
      WellFormed(t) && Find(t.order, t.files, name) == Some(id) && t.files[id] == FileRec(name, 0, false, data)
  {
    hide Write, Close, Find;
    assert FdOk(s, s.fds[fd]);
    WriteOutcome(s, fd, data);
    WriteKeeps(s, fd, data);
    var u, id := Write(s, fd, data).0, s.fds[fd].value.file;
    assert u.files[id].content == data;
    CloseOutcome(u, fd);
    CloseKeeps(u, fd);
    var t := Close(u, fd).0;
    FindSame(s.order, s.files, t.files, name);
  }

  /** What is written to a new file is what is read after the file has been closed and opened
      again, if its name is not hidden by a ghost. */
  lemma StoredIsLoaded(s: Fs, name: string, store: Flags, data: seq<byte>, load: Flags)
    requires WellFormed(s) && NameMapOk(s) && LiveFile(s, name).None? && !GhostHead(s, name)
    requires store.create && !store.readOnly && |data| <= MAX_FILE_SIZE && (load.readOnly || !load.writeOnly)
    ensures var (s1, r1) := Open(s, name, store);
      && WellFormed(s1) && ValidFd(s1, r1.value) && FdOk(s1, s1.fds[r1.value])
      && var s2 := Write(s1, r1.value, data).0;
      && WellFormed(s2) && ValidFd(s2, r1.value) && FdOk(s2, s2.fds[r1.value])
      && var s3 := Close(s2, r1.value).0;
      && WellFormed(s3)
      && var (s4, r4) := Open(s3, name, load);
      && WellFormed(s4) && ValidFd(s4, r4.value) && FdOk(s4, s4.fds[r4.value])
      && Read(s4, r4.value, |data|).1 == Ret(|data|, data)
  {
    hide Open, Write, Close, Read, Find, NameMapOk;
    var (s1, r1) := Open(s, name, store);
    StoreOpens(s, name, store);
    WriteThenClose(s1, r1.value, name, data);
    var s3 := Close(Write(s1, r1.value, data).0, r1.value).0;
    OpenOutcome(s3, name, load);
    OpenWellFormed(s3, name, load);
    var (s4, r4) := Open(s3, name, load);
    assert FdOk(s4, s4.fds[r4.value]);
    ReadOutcome(s4, r4.value, |data|);
  }

  lemma StoreOpens(s: Fs, name: string, store: Flags)
    requires WellFormed(s) && NameMapOk(s) && LiveFile(s, name).None? && !GhostHead(s, name)
    requires store.create && !store.readOnly
    ensures var (t, ret) := Open(s, name, store);
      && WellFormed(t) && ValidFd(t, ret.value)
      && t.fds[ret.value].value.pos == 0 && t.fds[ret.value].value.mode != ReadOnly
      && Find(t.order, t.files, name) == Some(t.fds[ret.value].value.file)
      && t.files[t.fds[ret.value].value.file] == FileRec(name, 1, false, [])
  {
    hide Open, Find, NameMapOk;
    FindMeansLive(s, name);
    CreatesOver(s, name, store);
    OpenOutcome(s, name, store);
  }

  // ---- the capacity of the descriptor array ----

  predicate PowerOfTwo(n: nat) {
    n == 1 || (n > 0 && n % 2 == 0 && PowerOfTwo(n / 2))
  }

  predicate CapacityOk(s: Fs) {
    s.fds == [] || PowerOfTwo(|s.fds|)
  }

  lemma ReserveCapacity(s: Fs)
    requires CapacityOk(s)
    ensures CapacityOk(Reserve(s))
    ensures |Reserve(s).fds| > Max(|s.fds|, 1) ==> s.count >= |s.fds|
  {
    var n := Max(|s.fds|, 1);
    assert PowerOfTwo(n);
    assert 2 * n / 2 == n && PowerOfTwo(2 * n);
  }

  /** Only opening grows the array: from nothing to 1, and then to twice its size, when the
      counter of descriptors has reached it. */
  lemma CapacityKept(s: Fs, call: Call)
    requires WellFormed(s) && Legal(s, call) && CapacityOk(s)
    ensures CapacityOk(Apply(s, call).0)
    ensures |Apply(s, call).0.fds| > Max(|s.fds|, 1) ==> call.OpenCall? && s.count >= |s.fds|
  {
    hide Grow, FirstFree, PowerOfTwo, Find;
    match call
    case OpenCall(name, flags) =>
      ReserveFinds(s);
      ReserveCapacity(s);
    case _ =>
  }

  /** In every run the capacity is 0 or a power of two. */
  lemma {:induction false} CapacityAlways(s: Fs, calls: seq<Call>)
    requires WellFormed(s) && LegalRun(s, calls) && CapacityOk(s)
    ensures CapacityOk(After(s, calls))
    decreases |calls|
  {
    hide Apply, Legal;
    if calls != [] {
      WellFormedInductive(s, calls[0]);
      CapacityKept(s, calls[0]);
      CapacityAlways(Apply(s, calls[0]).0, calls[1..]);
    }
  }
}
