/** The file system of 3/userfs.c with flat file contents: the state every call sees, and
    what every call does to it. Configuration: NEED_OPEN_FLAGS on, NEED_RESIZE off. */
module UserFsModel {
  import opened Common

  const BLOCK_SIZE: nat := 512
  const MAX_FILE_SIZE: nat := 1024 * 1024 * 100

  newtype byte = x: int | 0 <= x < 256

  /** File identities: a number a file gets when it is created, history only. */
  type FileId = nat

  datatype Error = NoError | NoFile | NoMem | Internal | NoPermission

  /** The flag bits of ufs_open. */
  datatype Flags = Flags(create: bool, readOnly: bool, writeOnly: bool, readWrite: bool)

  datatype Mode = ReadOnly | WriteOnly | ReadWrite

  /** struct file: `content` stands for its block list. */
  datatype FileRec = FileRec(name: string, refs: int, isDel: bool, content: seq<byte>)

  /** struct filedesc. */
  datatype Fd = Fd(file: FileId, pos: int, mode: Mode)

  /** The globals. `order` is the file list in search order, the head first; `fds` is the
      descriptor array, as long as its capacity; `nextId` is history. */
  datatype Fs = Fs(
    order: seq<FileId>,
    files: map<FileId, FileRec>,
    fds: seq<Option<Fd>>,
    count: int,
    errno: Error,
    nextId: FileId)

  const EMPTY: Fs := Fs([], map[], [], 0, NoError, 0)

  // ---- well-formed states ----

  /** How many descriptors point at the file (refs counts them). */
  function Refs(fds: seq<Option<Fd>>, id: FileId): nat {
    if fds == [] then 0
    else
      var last := fds[|fds| - 1];
      Refs(fds[..|fds| - 1], id) + if last.Some? && last.value.file == id then 1 else 0
  }

  /** How many slots are taken. */
  function Occupied(fds: seq<Option<Fd>>): nat {
    if fds == [] then 0
    else Occupied(fds[..|fds| - 1]) + if fds[|fds| - 1].Some? then 1 else 0
  }

  ghost predicate FileOk(s: Fs, id: FileId)
    requires id in s.files
  {
    && id < s.nextId
    && s.files[id].refs == Refs(s.fds, id)
    && (s.files[id].isDel ==> s.files[id].refs > 0)
    && |s.files[id].content| <= MAX_FILE_SIZE
  }

  ghost predicate FdOk(s: Fs, d: Option<Fd>) {
    d.Some? ==> d.value.file in s.files && 0 <= d.value.pos <= |s.files[d.value.file].content|
  }

  /** No file is listed twice. */
  ghost predicate Distinct(order: seq<FileId>) {
    forall i, j :: 0 <= i < j < |order| ==> order[i] != order[j]
  }

  /** The list holds each file once; reference counts are exact; a deleted file is listed
      only while it is open; a descriptor points at a listed file, at most at its end; the
      descriptor counter never undercounts. */
  ghost predicate WellFormed(s: Fs) {
    && Distinct(s.order)
    && (forall id :: id in s.files <==> id in s.order)
    && (forall id :: id in s.files ==> FileOk(s, id))
    && (forall i :: 0 <= i < |s.fds| ==> FdOk(s, s.fds[i]))
    && Occupied(s.fds) <= s.count <= |s.fds|
  }

  // ---- the calls ----

  /** file_find, lines 101-110: the first file of that name in search order. */
  function Find(order: seq<FileId>, files: map<FileId, FileRec>, name: string): (r: Option<FileId>)
    requires forall id :: id in order ==> id in files
    ensures r.Some? ==> r.value in order && files[r.value].name == name
  {
    if order == [] then None
    else if files[order[0]].name == name then Some(order[0])
    else Find(order[1..], files, name)
  }

  /** The descriptor array after the growth of lines 76-90. */
  function Grow(fds: seq<Option<Fd>>, count: int): seq<Option<Fd>> {
    var fds1 := if fds == [] then [None] else fds;
    if count == |fds1| then fds1 + Nones(|fds1|) else fds1
  }

  function Nones(n: nat): seq<Option<Fd>> {
    seq(n, _ => None)
  }

  /** The lowest free slot, or the length if there is none (92-97). */
  function FirstFree(fds: seq<Option<Fd>>): nat {
    if fds == [] || fds[0].None? then 0 else 1 + FirstFree(fds[1..])
  }

  /** file_create, lines 112-140: the new file goes directly behind the head. */
  function Insert<T>(order: seq<T>, x: T): seq<T> {
    if order == [] then [x] else [order[0], x] + order[1..]
  }

  function Create(s: Fs, name: string): Fs {
    s.(order := Insert(s.order, s.nextId),
       files := s.files[s.nextId := FileRec(name, 0, false, [])],
       nextId := s.nextId + 1)
  }

  function ModeOf(flags: Flags): Mode {
    if flags.readOnly then ReadOnly else if flags.writeOnly then WriteOnly else ReadWrite
  }

  /** Lines 162-181: descriptor fd on file id. */
  function Attach(s: Fs, fd: nat, id: FileId, flags: Flags): Fs
    requires fd < |s.fds| && id in s.files
  {
    var rec := s.files[id];
    s.(fds := s.fds[fd := Some(Fd(id, 0, ModeOf(flags)))], files := s.files[id := rec.(refs := rec.refs + 1)])
  }

  /** What a call returns: a number, and for a read the bytes. */
  datatype Ret = Ret(value: int, data: seq<byte>)

  /** The slot reservation of lines 75-99. */
  function Reserve(s: Fs): Fs {
    var fds := Grow(s.fds, s.count);
    if FirstFree(fds) < |fds| then s.(fds := fds, count := s.count + 1) else s.(fds := fds)
  }

  /** Lines 149-181, with slot fd reserved and `target` the file the name is taken to mean. */
  function OpenAt(s: Fs, fd: nat, target: Option<FileId>, name: string, flags: Flags): (Fs, Ret)
    requires fd < |s.fds| && (target.Some? ==> target.value in s.files)
  {
    if target.Some? && !s.files[target.value].isDel then (Attach(s, fd, target.value, flags), Ret(fd, []))
    else if flags.create then (Attach(Create(s, name), fd, s.nextId, flags), Ret(fd, []))
    else (s.(errno := NoFile), Ret(-1, []))
  }

  /** ufs_open, lines 142-182. */
  function OpenAs(s: Fs, target: Option<FileId>, name: string, flags: Flags): (Fs, Ret)
    requires target.Some? ==> target.value in s.files
  {
    var s1 := Reserve(s);
    var fd := FirstFree(s1.fds);
    if fd >= |s1.fds| then (s1.(errno := Internal), Ret(-1, []))
    else OpenAt(s1, fd, target, name, flags)
  }

  function Open(s: Fs, name: string, flags: Flags): (Fs, Ret)
    requires Listed(s)
  {
    OpenAs(s, Find(s.order, s.files, name), name, flags)
  }

  predicate Listed(s: Fs) {
    forall id :: id in s.order ==> id in s.files
  }

  /** Unlinking a file (332-342) keeps the order of the others. */
  function Without(order: seq<FileId>, id: FileId): seq<FileId> {
    if order == [] then []
    else if order[0] == id then order[1..]
    else [order[0]] + Without(order[1..], id)
  }

  /** file_delete, lines 319-346: nothing while the file is open. */
  function FreeFile(s: Fs, id: FileId): Fs
    requires id in s.files
  {
    if s.files[id].refs > 0 then s else s.(order := Without(s.order, id), files := s.files - {id})
  }

  /** ufs_delete (366-376), where `target` is the file the name is taken to mean. */
  function DeleteAs(s: Fs, target: Option<FileId>): (Fs, Ret)
    requires target.Some? ==> target.value in s.files
  {
    if target.None? then (s, Ret(0, []))
    else
      var id := target.value;
      (FreeFile(s.(files := s.files[id := s.files[id].(isDel := true)]), id), Ret(0, []))
  }

  function Delete(s: Fs, name: string): (Fs, Ret)
    requires Listed(s)
  {
    DeleteAs(s, Find(s.order, s.files, name))
  }

  /** The descriptor test of lines 235, 283 and 349. It reads past the array when fd is the
      capacity: callers must not pass that. */
  predicate ValidFd(s: Fs, fd: int) {
    0 <= fd < |s.fds| && s.fds[fd].Some?
  }

  predicate LegalFd(s: Fs, fd: int) {
    fd != |s.fds|
  }

  /** Lines 355-358: one descriptor less; the last one frees a ghost. */
  function DropRef(s: Fs, id: FileId): Fs
    requires id in s.files
  {
    var rec := s.files[id].(refs := s.files[id].refs - 1);
    var s1 := s.(files := s.files[id := rec]);
    if rec.refs == 0 && rec.isDel then FreeFile(s1, id) else s1
  }

  /** ufs_close, lines 348-364. */
  function Close(s: Fs, fd: int): (Fs, Ret)
    requires LegalFd(s, fd) && (ValidFd(s, fd) ==> s.fds[fd].value.file in s.files)
  {
    if !ValidFd(s, fd) then (s.(errno := NoFile), Ret(-1, []))
    else
      var id := s.fds[fd].value.file;
      var s2 := DropRef(s, id);
      (s2.(fds := s2.fds[fd := None], count := s2.count - 1), Ret(0, []))
  }

  /** Bytes written over a content from a position on. */
  function Overlay(content: seq<byte>, pos: nat, buf: seq<byte>): seq<byte>
    requires pos <= |content|
  {
    content[..pos] + buf + if pos + |buf| < |content| then content[pos + |buf|..] else []
  }

  /** ufs_write, lines 234-255. */
  function Write(s: Fs, fd: int, buf: seq<byte>): (Fs, Ret)
    requires LegalFd(s, fd) && (0 <= fd < |s.fds| ==> FdOk(s, s.fds[fd]))
  {
    if !ValidFd(s, fd) then (s.(errno := NoFile), Ret(-1, []))
    else
      var d := s.fds[fd].value;
      if d.mode.ReadOnly? then (s.(errno := NoPermission), Ret(-1, []))
      else if d.pos + |buf| > MAX_FILE_SIZE then (s.(errno := NoMem), Ret(-1, []))
      else
        var rec := s.files[d.file];
        (s.(files := s.files[d.file := rec.(content := Overlay(rec.content, d.pos, buf))],
            fds := s.fds[fd := Some(d.(pos := d.pos + |buf|))]),
         Ret(|buf|, []))
  }

  /** ufs_read, lines 282-317. */
  function Read(s: Fs, fd: int, size: nat): (Fs, Ret)
    requires LegalFd(s, fd) && (0 <= fd < |s.fds| ==> FdOk(s, s.fds[fd]))
  {
    if !ValidFd(s, fd) then (s.(errno := NoFile), Ret(-1, []))
    else
      var d := s.fds[fd].value;
      if d.mode.WriteOnly? then (s.(errno := NoPermission), Ret(-1, []))
      else
        var content := s.files[d.file].content;
        var n := Min(size, |content| - d.pos);
        (s.(fds := s.fds[fd := Some(d.(pos := d.pos + n))]), Ret(n, content[d.pos..d.pos + n]))
  }

  // ---- runs ----

  datatype Call =
    | OpenCall(name: string, flags: Flags)
    | CloseCall(fd: int)
    | DeleteCall(name: string)
    | WriteCall(fd: int, buf: seq<byte>)
    | ReadCall(fd: int, size: nat)

  /** What the library demands of its callers. */
  predicate Legal(s: Fs, call: Call) {
    match call
    case OpenCall(_, _) => true
    case DeleteCall(_) => true
    case CloseCall(fd) => LegalFd(s, fd)
    case WriteCall(fd, _) => LegalFd(s, fd)
    case ReadCall(fd, _) => LegalFd(s, fd)
  }

  function Apply(s: Fs, call: Call): (Fs, Ret)
    requires WellFormed(s) && Legal(s, call)
  {
    match call
    case OpenCall(name, flags) => Open(s, name, flags)
    case CloseCall(fd) => Close(s, fd)
    case DeleteCall(name) => Delete(s, name)
    case WriteCall(fd, buf) => Write(s, fd, buf)
    case ReadCall(fd, size) => Read(s, fd, size)
  }
}
