/** The globals and calls of 3/userfs.c: the doubly linked file list and the descriptor array,
    updated in place. Every call does to them what UserFsModel says it does, and
    returns what UserFsModel returns, errors included. */
module UserFsCode {
  import opened Common
  import opened UserFsModel
  import opened UserFsRuns
  import opened UserFsFile

  class FileDesc {
    var file: File
    var pos: int
    var mode: Mode

    constructor (f: File, flags: Flags)
      ensures file == f && pos == 0 && mode == ModeOf(flags)
    {
      file, pos := f, 0;
      mode := if flags.readOnly then ReadOnly else if flags.writeOnly then WriteOnly else ReadWrite;
    }
  }

  ghost function FileAt(order: seq<File>, i: nat): File? {
    if i < |order| then order[i] else null
  }

  /** Both link directions of the file list: `prev` is the search direction. */
  ghost predicate ListLinked(order: seq<File>)
    reads order`next, order`prev
  {
    forall i {:trigger order[i].prev} {:trigger order[i].next} :: 0 <= i < |order| ==>
      && order[i].prev == FileAt(order, i + 1)
      && order[i].next == if i == 0 then null else order[i - 1]
  }

  /** A file object stands for its record. */
  ghost predicate Stands(f: File, files: map<FileId, FileRec>)
    reads f`blockList, f`blocks, f`content, f`repr, f`name, f`refs, f`isDel, f.repr
  {
    f.Valid() && f.id in files && files[f.id] == FileRec(f.name, f.refs, f.isDel, f.content)
  }

  ghost predicate Named(order: seq<File>, ids: seq<FileId>) {
    |order| == |ids| && forall i :: 0 <= i < |order| ==> order[i].id == ids[i]
  }

  /** A descriptor slot stands for its record; its file is the listed one, if it is listed. */
  ghost predicate SlotStands(d: FileDesc?, fd: Option<Fd>, order: seq<File>, files: map<FileId, FileRec>)
    reads d
  {
    if d == null then fd == None
    else
      && fd == Some(Fd(d.file.id, d.pos, d.mode))
      && (d.file.id in files ==> d.file in order)
  }

  /** Every block and memory has one owner, so the files' block lists are separate. */
  ghost predicate Owns(f: File, owner: map<object, FileId>)
    reads f`repr
  {
    f !in owner && forall o :: o in f.repr ==> o in owner && owner[o] == f.id
  }

  /** The listed files are the model's: same order, same records. */
  ghost predicate RecordsStand(order: seq<File>, owner: map<object, FileId>, ids: seq<FileId>, files: map<FileId,
      FileRec>)
    reads order`blockList, order`blocks, order`content, order`repr, order`name, order`refs, order`isDel, owner.Keys
  {
    && Named(order, ids)
    && Distinct(ids)
    && (forall id :: id in files <==> id in ids)
    && (forall i :: 0 <= i < |order| ==> Owns(order[i], owner) && Stands(order[i], files))
  }

  ghost predicate FilesStand(head: File?, order: seq<File>, owner: map<object, FileId>, ids: seq<FileId>,
      files: map<FileId, FileRec>)
    reads order, owner.Keys
  {
    head == FileAt(order, 0) && ListLinked(order) && RecordsStand(order, owner, ids, files)
  }

  /** The descriptor array is the model's. */
  ghost predicate SlotsStand(descs: array<FileDesc?>, fds: seq<Option<Fd>>, order: seq<File>, files: map<FileId,
      FileRec>)
    reads descs, descs[..]
  {
    && descs.Length == |fds|
    && (forall k :: 0 <= k < descs.Length ==>
          SlotStands(descs[k], fds[k], order, files))
    && (forall j, k :: 0 <= j < k < descs.Length && descs[j] != null ==> descs[j] != descs[k])
  }

  class UserFs {
    var fileList: File?
    var descs: array<FileDesc?>
    var count: int
    var errno: Error

    ghost var order: seq<File>
    ghost var owner: map<object, FileId>
    ghost var model: Fs

    ghost predicate Represents()
      reads this, order, owner.Keys, descs, descs[..]
    {
      && FilesStand(fileList, order, owner, model.order, model.files)
      && SlotsStand(descs, model.fds, order, model.files)
      && this !in owner && descs !in owner
      && (forall k :: 0 <= k < descs.Length ==> descs[k] == null || descs[k] !in owner)
      && count == model.count && errno == model.errno
    }

    /** The heap stands for a well-formed file system. */
    ghost predicate Valid()
      reads this, order, owner.Keys, descs, descs[..]
    {
      Represents() && WellFormed(model)
    }

    /** Every object the state gained since the call began is new. */
    twostate predicate Grown()
      reads this, descs
    {
      && (descs == old(descs) || fresh(descs))
      && (forall f :: f in order ==> f in old(order) || fresh(f))
      && (forall o :: o in owner ==> o in old(owner) || fresh(o))
      && (forall k :: 0 <= k < descs.Length ==>
            descs[k] == null || fresh(descs[k]) || (k < old(descs.Length) && descs[k] == old(descs[k])))
    }

    constructor ()
      ensures Valid() && model == EMPTY
      ensures order == [] && owner == map[] && fresh(descs) && descs.Length == 0
    {
      fileList, descs, count, errno := null, new FileDesc?[0], 0, NoError;
      order, owner, model := [], map[], EMPTY;
    }

    /** file_find, lines 101-110. */
    method FindFile(filename: string) returns (file: File?, ghost i: nat)
      requires FilesStand(fileList, order, owner, model.order, model.files)
      ensures i <= |order| && file == FileAt(order, i)
      ensures file != null ==> file.id in model.files && model.files[file.id].isDel == file.isDel
      ensures Find(model.order, model.files, filename) == if file == null then None else Some(file.id)
    {
      file, i := fileList, 0;
      assert model.order[0..] == model.order;
      while file != null
        invariant i <= |order| && file == FileAt(order, i)
        invariant Find(model.order, model.files, filename) == Find(model.order[i..], model.files, filename)
        decreases |order| - i
      {
        assert Stands(order[i], model.files);
        if file.name == filename {
          return;
        }
        assert model.order[i..][1..] == model.order[i + 1..];
        file, i := file.prev, i + 1;
      }
    }

    /** Lines 76-80: an array of one slot at first. */
    method FirstSlot()
      requires Represents()
      modifies this`descs, this`model
      ensures Represents() && Grown()
      ensures model == old(model).(fds := if old(model).fds == [] then [None] else old(model).fds)
    {
      hide FilesStand;
      if descs.Length == 0 {
        descs := new FileDesc?[1](_ => null);
        model := model.(fds := [None]);
      }
    }

    /** Lines 76-90: twice as many slots when the counter says full. */
    method GrowTable()
      requires Represents()
      modifies this`descs, this`model
      ensures Represents() && Grown()
      ensures model == old(model).(fds := Grow(old(model).fds, old(model).count))
    {
      hide FilesStand, SlotsStand;
      SlotsLength(descs, model.fds, order, model.files);
      FirstSlot();
      SlotsLength(descs, model.fds, order, model.files);
      if count == descs.Length {
        descs := Doubled(descs, model.fds);
        model := model.(fds := model.fds + Nones(|model.fds|));
      }
    }

    /** realloc and memset, lines 83-89. */
    method Doubled(descs: array<FileDesc?>, ghost fds: seq<Option<Fd>>) returns (bigger: array<FileDesc?>)
      requires SlotsStand(descs, fds, order, model.files)
      ensures fresh(bigger) && bigger[..] == descs[..] + seq(descs.Length, _ => null)
      ensures SlotsStand(bigger, fds + Nones(|fds|), order, model.files)
    {
      bigger := new FileDesc?[2 * descs.Length](_ => null);
      forall k | 0 <= k < descs.Length {
        bigger[k] := descs[k];
      }
    }

    /** get_free_fd_adress, lines 75-99. */
    method GetFreeFd() returns (fd: int)
      requires Represents()
      modifies this`descs, this`model, this`count
      ensures Represents() && model == Reserve(old(model))
      ensures var free := FirstFree(model.fds); fd == if free < |model.fds| then free else -1
      ensures fd < descs.Length == |model.fds|
      ensures Grown()
    {
      hide FilesStand;
      GrowTable();
      for i := 0 to descs.Length
        invariant forall k :: 0 <= k < i ==> model.fds[k].Some?
      {
        assert SlotStands(descs[i], model.fds[i], order, model.files);
        if descs[i] == null {
          FirstFreeIs(model.fds, i);
          count := count + 1;
          model := model.(count := model.count + 1);
          return i;
        }
      }
      FirstFreeIs(model.fds, |model.fds|);
      return -1;
    }

    /** Lines 127-139: the new file becomes the head of an empty list, or goes behind the head. */
    method LinkFile(file: File)
      requires ListLinked(order) && fileList == FileAt(order, 0)
      requires file !in order && file.next == null && file.prev == null
      requires forall i, j :: 0 <= i < j < |order| ==> order[i] != order[j]
      modifies this`fileList, this`order, file`next, file`prev, order`next, order`prev
      ensures ListLinked(order) && fileList == FileAt(order, 0)
      ensures order == Insert(old(order), file)
    {
      if fileList == null {
        fileList := file;
        order := [file];
        return;
      }
      file.next := fileList;
      file.prev := fileList.prev;
      if fileList.prev != null {
        fileList.prev.next := file;
      }
      fileList.prev := file;
      order := [order[0], file] + order[1..];
    }

    /** Lines 332-342: out of the list, the order of the others kept. */
    method UnlinkFile(file: File, ghost i: nat)
      requires ListLinked(order) && fileList == FileAt(order, 0)
      requires i < |order| && order[i] == file
      requires forall i, j :: 0 <= i < j < |order| ==> order[i] != order[j]
      modifies this`fileList, this`order, order`next, order`prev
      ensures ListLinked(order) && fileList == FileAt(order, 0)
      ensures order == old(order)[..i] + old(order)[i + 1..]
    {
      if file.prev == null && file.next == null {
        fileList := null;
      } else if file.prev == null && file.next != null {
        file.next.prev := null;
      } else if file.prev != null && file.next == null {
        file.prev.next := null;
        fileList := file.prev;
      } else {
        file.prev.next := file.next;
        file.next.prev := file.prev;
      }
      order := order[..i] + order[i + 1..];
    }

    /** file_create, lines 112-140. */
    method CreateFile(filename: string) returns (file: File)
      requires FilesStand(fileList, order, owner, model.order, model.files)
      requires WellFormed(model) && this !in owner
      modifies this`fileList, this`order, this`model, order`next, order`prev
      ensures FilesStand(fileList, order, owner, model.order, model.files)
      ensures model == Create(old(model), filename)
      ensures fresh(file) && file in order && file.id == old(model).nextId
      ensures forall f :: f in order <==> f == file || f in old(order)
    {
      hide ListLinked, RecordsStand, WellFormed, Insert, File.Valid;
      file := new File(filename, model.nextId);
      assert Owns(file, owner);
      ghost var was, from := order, model;
      IdsDiffer(order, owner, model.order, model.files);
      LinkFile(file);
      InsertMembers(was, file);
      CreateStands(was, owner, from, file);
      model := Create(model, filename);
    }

    /** file_delete, lines 319-346: nothing while the file is open. */
    method FileDelete(file: File, ghost i: nat)
      requires FilesStand(fileList, order, owner, model.order, model.files)
      requires i < |order| && order[i] == file && this !in owner
      modifies this`fileList, this`order, this`model, order`next, order`prev
      ensures FilesStand(fileList, order, owner, model.order, model.files)
      ensures file.id in old(model).files && model == FreeFile(old(model), file.id)
      ensures forall f :: f in order ==> f in old(order)
      ensures forall f :: f in old(order) && f.id in model.files ==> f in order
    {
      hide ListLinked, RecordsStand;
      IdsDiffer(order, owner, model.order, model.files);
      if file.refs > 0 {
        return;
      }
      ghost var was, from := order, model;
      UnlinkFile(file, i);
      DeleteStands(was, owner, from, i);
      model := FreeFile(model, file.id);
      assert forall f :: f in was && f != file ==> f in order;
    }

    method SetRefs(file: File, refs: int, ghost i: nat)
      requires FilesStand(fileList, order, owner, model.order, model.files)
      requires i < |order| && order[i] == file && this !in owner
      modifies this`model, file`refs
      ensures file.refs == refs && FilesStand(fileList, order, owner, model.order, model.files)
      ensures file.id in old(model).files && old(model).files[file.id].refs == old(file.refs)
      ensures model == old(model).(files := old(model).files[file.id := old(model).files[file.id].(refs := refs)])
    {
      hide ListLinked, File.Valid;
      assert Stands(file, model.files);
      ghost var from := model;
      file.refs := refs;
      model := model.(files := model.files[file.id := model.files[file.id].(refs := refs)]);
      RecordsUpdate(order, owner, from.order, from.files, i, model.files[file.id]);
    }

    /** A slot gets a fresh descriptor, or null. */
    method SetSlot(fd: int, desc: FileDesc?)
      requires SlotsStand(descs, model.fds, order, model.files)
      requires 0 <= fd < descs.Length && (desc != null ==> desc.file in order && desc !in descs[..])
      modifies this`model, descs
      ensures SlotsStand(descs, model.fds, order, model.files)
      ensures model == old(model).(fds :=
        old(model).fds[fd := if desc == null then None else Some(Fd(desc.file.id, desc.pos, desc.mode))])
      ensures forall k :: 0 <= k < descs.Length ==> descs[k] == if k == fd then desc else old(descs[k])
    {
      ghost var from := model;
      descs[fd] := desc;
      model := model.(fds := model.fds[fd := if desc == null then None else Some(Fd(desc.file.id, desc.pos,
        desc.mode))]);
      forall k | 0 <= k < descs.Length ensures SlotStands(descs[k], model.fds[k], order, model.files) {
        if k != fd { assert SlotStands(old(descs[k]), from.fds[k], order, model.files); }
      }
    }

    /** Lines 162-181: a new descriptor on the file. */
    method AttachFile(fd: int, file: File, flags: Flags, ghost i: nat)
      requires Represents()
      requires 0 <= fd < descs.Length && i < |order| && order[i] == file
      modifies this`model, descs, file`refs
      ensures Represents()
      ensures file.id in old(model).files && model == Attach(old(model), fd, file.id, flags)
      ensures descs[fd] != null && fresh(descs[fd])
      ensures forall k :: 0 <= k < descs.Length && k != fd ==> descs[k] == old(descs[k])
    {
      hide FilesStand, SlotsStand;
      ghost var from := model;
      var desc := new FileDesc(file, flags);
      SetSlot(fd, desc);
      SetRefs(file, file.refs + 1, i);
      SlotsKeep(descs, model.fds, order, from.files, order, model.files);
    }

    /** The file a name stands for at an open (149-160): found, or created. */
    method FindOrCreate(filename: string, flags: Flags) returns (file: File?, ghost i: nat)
      requires Valid() && Listed(model)
      modifies this`fileList, this`order, this`model, order`next, order`prev, this`errno
      ensures Represents() && (file != null ==> i < |order| && order[i] == file)
      ensures forall f :: f in order ==> f in old(order) || fresh(f)
      ensures descs == old(descs)
      ensures var target := Find(old(model).order, old(model).files, filename);
        if target.Some? && !old(model).files[target.value].isDel then
          file != null && file.id == target.value && model == old(model)
        else if flags.create then file != null && file.id == old(model).nextId && model == Create(old(model), filename)
        else file == null && model == old(model).(errno := NoFile)
    {
      ghost var was, from := order, model;
      hide FilesStand, SlotsStand, WellFormed;
      file, i := FindFile(filename);
      if file == null || file.isDel {
        if flags.create {
          file := CreateFile(filename);
          CreateSlots(descs, was, from, order, filename);
          i :| i < |order| && order[i] == file;
        } else {
          errno := NoFile;
          model := model.(errno := NoFile);
          file := null;
        }
      }
    }

    /** Lines 149-181: the file the name stands for, on the reserved slot. */
    method OpenAt(slot: int, filename: string, flags: Flags) returns (fd: int)
      requires Valid() && Listed(model) && 0 <= slot < descs.Length == |model.fds|
      modifies this`fileList, this`order, this`model, this`errno, order, descs
      ensures Represents()
      ensures (model, Ret(fd, [])) ==
        UserFsModel.OpenAt(old(model), slot, Find(old(model).order, old(model).files, filename), filename, flags)
      ensures Grown()
    {
      hide FilesStand, SlotsStand, WellFormed, Create, Attach;
      var file, i := FindOrCreate(filename, flags);
      if file == null {
        return -1;
      }
      assert file in order;
      AttachFile(slot, file, flags, i);
      fd := slot;
    }

    /** ufs_open, lines 142-182. */
    method Open(filename: string, flags: Flags) returns (fd: int)
      requires Valid()
      modifies this, descs, descs[..], order, owner.Keys
      ensures Valid() && Grown()
      ensures (model, Ret(fd, [])) == UserFsModel.Open(old(model), filename, flags)
    {
      hide FilesStand, SlotsStand, WellFormed, Reserve, FirstFree, Find, OpenAs, UserFsModel.Open, UserFsModel.OpenAt;
      OpenSplits(model, filename, flags);
      ReserveKeeps(model);
      fd := GetFreeFd();
      if fd == -1 {
        errno := Internal;
        model := model.(errno := Internal);
      } else {
        fd := OpenAt(fd, filename, flags);
      }
    }

    /** Line 372. */
    method MarkDeleted(file: File, ghost i: nat)
      requires FilesStand(fileList, order, owner, model.order, model.files)
      requires i < |order| && order[i] == file && this !in owner
      modifies this`model, file`isDel
      ensures FilesStand(fileList, order, owner, model.order, model.files)
      ensures file.id in old(model).files
      ensures model == old(model).(files := old(model).files[file.id := old(model).files[file.id].(isDel := true)])
    {
      hide ListLinked, File.Valid;
      assert Stands(file, model.files);
      ghost var from := model;
      file.isDel := true;
      model := model.(files := model.files[file.id := model.files[file.id].(isDel := true)]);
      RecordsUpdate(order, owner, from.order, from.files, i, model.files[file.id]);
    }

    /** ufs_delete, lines 366-376. */
    method Delete(filename: string) returns (r: int)
      requires Valid()
      modifies this, descs, descs[..], order, owner.Keys
      ensures Valid() && Grown()
      ensures (model, Ret(r, [])) == UserFsModel.Delete(old(model), filename)
    {
      hide FilesStand, SlotsStand, WellFormed, Find;
      DeleteSplits(model, filename);
      ghost var was, from := order, model;
      var file, i := FindFile(filename);
      if file == null {
        return 0;
      }
      assert file in order;
      MarkDeleted(file, i);
      FileDelete(file, i);
      SlotsKeep(descs, model.fds, was, from.files, order, model.files);
      r := 0;
    }

    /** The descriptor test of lines 235, 283 and 349: fd may not be the capacity. */
    method LooksValid(fd: int) returns (ok: bool)
      requires SlotsStand(descs, model.fds, order, model.files) && LegalFd(model, fd)
      ensures ok == ValidFd(model, fd) && descs.Length == |model.fds|
      ensures ok ==> 0 <= fd < descs.Length && descs[fd] != null
    {
      assert forall k :: 0 <= k < descs.Length ==> SlotStands(descs[k], model.fds[k], order, model.files);
      ok := !(fd < 0 || fd > descs.Length || descs[fd] == null);
    }

    /** Lines 355-358. */
    method RemoveRef(file: File, ghost i: nat)
      requires Represents()
      requires i < |order| && order[i] == file
      requires file.id in model.files && file.isDel == model.files[file.id].isDel
      modifies this`fileList, this`order, this`model, order`next, order`prev, file`refs
      ensures Represents() && model == DropRef(old(model), file.id) && model.fds == old(model).fds
      ensures forall f :: f in order ==> f in old(order)
    {
      hide FilesStand, SlotsStand;
      ghost var was, from := order, model;
      SetRefs(file, file.refs - 1, i);
      if file.refs == 0 && file.isDel {
        FileDelete(file, i);
      }
      SlotsKeep(descs, model.fds, was, from.files, order, model.files);
    }

    /** Lines 360-362: the slot is free again. */
    method FreeSlot(fd: int)
      requires Represents() && 0 <= fd < descs.Length == |model.fds|
      modifies this`model, this`count, descs
      ensures Represents() && descs == old(descs)
      ensures model == old(model).(fds := old(model).fds[fd := None], count := old(model).count - 1)
      ensures forall k :: 0 <= k < descs.Length ==> descs[k] == if k == fd then null else old(descs[k])
    {
      hide FilesStand, SlotsStand;
      SetSlot(fd, null);
      count := count - 1;
      model := model.(count := model.count - 1);
    }

    /** ufs_close, lines 348-364. */
    method Close(fd: int) returns (r: int)
      requires Valid() && LegalFd(model, fd)
      modifies this, descs, descs[..], order, owner.Keys
      ensures Valid() && Grown()
      ensures ValidFd(old(model), fd) ==> old(model).fds[fd].value.file in old(model).files
      ensures (model, Ret(r, [])) == UserFsModel.Close(old(model), fd)
    {
      hide FilesStand, SlotsStand, WellFormed, DropRef, File.Valid, UserFsModel.Close;
      CloseSplits(model, fd);
      var ok := LooksValid(fd);
      if !ok {
        errno := NoFile;
        model := model.(errno := NoFile);
        r := -1;
      } else {
        var file, i := FileOf(fd);
        RemoveRef(file, i);
        FreeSlot(fd);
        r := 0;
      }
    }

    /** Line 251: the write itself, and who owns the new blocks. */
    method WriteFile(file: File, buf: seq<byte>, pos: nat, ghost i: nat) returns (n: nat)
      requires FilesStand(fileList, order, owner, model.order, model.files) && this !in owner
      requires i < |order| && order[i] == file && pos <= |file.content|
      modifies this`model, this`owner, file`blockList, file`blocks, file`content, file`repr, file.repr
      ensures FilesStand(fileList, order, owner, model.order, model.files) && n == |buf|
      ensures file.id in old(model).files && old(model).files[file.id].content == old(file.content)
      ensures var rec := old(model).files[file.id];
        model == old(model).(files := old(model).files[file.id := rec.(content := Overlay(rec.content, pos, buf))])
      ensures forall o :: o in owner ==> o in old(owner) || fresh(o)
    {
      hide ListLinked, File.Valid, RecordsStand, OthersStand, Overlay;
      SplitRecords(order, owner, model.order, model.files, i);
      n := file.Write(buf, pos);
      JoinRecords(order, owner, model.order, model.files, i);
      owner := owner + map o | o in file.repr :: file.id;
      model := model.(files := model.files[file.id := model.files[file.id].(content := file.content)]);
    }

    /** Lines 252 and 314: the descriptor moves on. */
    method MovePos(fd: int, desc: FileDesc, n: nat)
      requires SlotsStand(descs, model.fds, order, model.files)
      requires 0 <= fd < descs.Length == |model.fds| && descs[fd] == desc && model.fds[fd].Some?
      modifies this`model, desc`pos
      ensures SlotsStand(descs, model.fds, order, model.files)
      ensures var d := old(model).fds[fd].value;
        model == old(model).(fds := old(model).fds[fd := Some(d.(pos := d.pos + n))])
    {
      ghost var from := model;
      assert SlotStands(descs[fd], model.fds[fd], order, model.files);
      desc.pos := desc.pos + n;
      model := model.(fds := model.fds[fd := Some(from.fds[fd].value.(pos := from.fds[fd].value.pos + n))]);
      forall k | 0 <= k < descs.Length ensures SlotStands(descs[k], model.fds[k], order, model.files) {
        assert old(SlotStands(descs[k], model.fds[k], order, model.files));
        assert k != fd ==> descs[k] == null || descs[k] != desc;
      }
    }

    /** Lines 251-252, after the checks. */
    method WriteAt(fd: int, desc: FileDesc, file: File, buf: seq<byte>, ghost i: nat) returns (n: nat)
      requires Represents() && 0 <= fd < descs.Length == |model.fds| && descs[fd] == desc
      requires i < |order| && order[i] == file && file.repr <= owner.Keys && 0 <= desc.pos <= |file.content|
      requires model.fds[fd] == Some(Fd(file.id, desc.pos, desc.mode))
      modifies this`model, this`owner, desc`pos, file, owner.Keys
      ensures Represents() && Grown() && n == |buf|
      ensures file.id in old(model).files
      ensures var d, rec := old(model).fds[fd].value, old(model).files[file.id];
        && 0 <= d.pos <= |rec.content|
        && model == old(model).(
            files := old(model).files[file.id := rec.(content := Overlay(rec.content, d.pos, buf))],
            fds := old(model).fds[fd := Some(d.(pos := d.pos + |buf|))])
    {
      hide SlotsStand, FilesStand, Overlay, File.Valid;
      ghost var from := model;
      n := WriteFile(file, buf, desc.pos, i);
      SlotsKeep(descs, model.fds, order, from.files, order, model.files);
      MovePos(fd, desc, n);
    }

    /** ufs_write, lines 234-255. */
    method Write(fd: int, buf: seq<byte>) returns (r: int)
      requires Valid() && LegalFd(model, fd)
      modifies this, descs, descs[..], order, owner.Keys
      ensures Valid() && Grown()
      ensures 0 <= fd < |old(model).fds| ==> FdOk(old(model), old(model).fds[fd])
      ensures (model, Ret(r, [])) == UserFsModel.Write(old(model), fd, buf)
    {
      hide FilesStand, SlotsStand, WellFormed, Overlay, File.Valid;
      WriteSplits(model, fd, buf);
      var ok := LooksValid(fd);
      if !ok {
        errno := NoFile;
        model := model.(errno := NoFile);
        return -1;
      }
      var file, i := FileOf(fd);
      var desc := descs[fd];
      if !desc.mode.WriteOnly? && !desc.mode.ReadWrite? {
        errno := NoPermission;
        model := model.(errno := NoPermission);
        return -1;
      }
      if desc.pos + |buf| > MAX_FILE_SIZE {
        errno := NoMem;
        model := model.(errno := NoMem);
        return -1;
      }
      r := WriteAt(fd, desc, file, buf, i);
    }

    /** Lines 294-314, after the checks. */
    method ReadAt(fd: int, desc: FileDesc, file: File, buf: array<byte>, size: nat) returns (n: nat)
      requires Represents() && 0 <= fd < descs.Length == |model.fds| && descs[fd] == desc
      requires file.Valid() && file.repr <= owner.Keys && 0 <= desc.pos <= |file.content|
      requires model.fds[fd] == Some(Fd(file.id, desc.pos, desc.mode))
      requires size <= buf.Length && buf !in owner
      modifies this`model, desc`pos, buf
      ensures Represents() && n == Min(size, |file.content| - old(desc.pos))
      ensures buf[..n] == file.content[old(desc.pos)..old(desc.pos) + n] && buf[n..] == old(buf[n..])
      ensures var d := old(model).fds[fd].value;
        model == old(model).(fds := old(model).fds[fd := Some(d.(pos := d.pos + n))])
    {
      hide SlotsStand, FilesStand, File.Valid;
      n := file.Read(buf, size, desc.pos);
      MovePos(fd, desc, n);
    }

    /** ufs_read, lines 282-317: the bytes land in the caller's buffer. */
    method Read(fd: int, buf: array<byte>, size: nat) returns (r: int)
      requires Valid() && LegalFd(model, fd)
      requires size <= buf.Length && buf !in owner
      modifies this, descs, descs[..], order, owner.Keys, buf
      ensures Valid() && Grown()
      ensures 0 <= fd < |old(model).fds| ==> FdOk(old(model), old(model).fds[fd])
      ensures -1 <= r <= size
      ensures (model, Ret(r, buf[..Max(r, 0)])) == UserFsModel.Read(old(model), fd, size)
      ensures buf[Max(r, 0)..] == old(buf[Max(r, 0)..])
    {
      hide FilesStand, SlotsStand, WellFormed, File.Valid;
      ReadSplits(model, fd, size);
      var ok := LooksValid(fd);
      if !ok {
        errno := NoFile;
        model := model.(errno := NoFile);
        return -1;
      }
      var file, i := FileOf(fd);
      var desc := descs[fd];
      if !desc.mode.ReadOnly? && !desc.mode.ReadWrite? {
        errno := NoPermission;
        model := model.(errno := NoPermission);
        return -1;
      }
      r := ReadAt(fd, desc, file, buf, size);
    }

    /** The file a descriptor points at is listed. */
    method FileOf(fd: int) returns (file: File, ghost i: nat)
      requires Valid() && ValidFd(model, fd) && descs.Length == |model.fds| && descs[fd] != null
      ensures file == descs[fd].file && file.id == model.fds[fd].value.file && file.id in model.files
      ensures i < |order| && order[i] == file
      ensures model.fds[fd] == Some(Fd(file.id, descs[fd].pos, descs[fd].mode))
      ensures file.isDel == model.files[file.id].isDel && file.refs == model.files[file.id].refs
      ensures 0 <= descs[fd].pos <= |file.content| && file.content == model.files[file.id].content
      ensures file.Valid() && file.repr <= owner.Keys
    {
      hide File.Valid, ListLinked;
      assert SlotStands(descs[fd], model.fds[fd], order, model.files);
      assert FdOk(model, model.fds[fd]);
      file := descs[fd].file;
      i :| i < |order| && order[i] == file;
      assert Stands(order[i], model.files) && Owns(order[i], owner);
    }
  }

  lemma SlotsLength(descs: array<FileDesc?>, fds: seq<Option<Fd>>, order: seq<File>, files: map<FileId, FileRec>)
    requires SlotsStand(descs, fds, order, files)
    ensures descs.Length == |fds|
  {
  }

  lemma DeleteSplits(s: Fs, name: string)
    requires WellFormed(s)
    ensures Listed(s) && WellFormed(UserFsModel.Delete(s, name).0)
  {
    DeleteKeeps(s, Find(s.order, s.files, name));
  }

  lemma WriteSplits(s: Fs, fd: int, buf: seq<byte>)
    requires WellFormed(s) && LegalFd(s, fd)
    ensures 0 <= fd < |s.fds| ==> FdOk(s, s.fds[fd])
    ensures WellFormed(UserFsModel.Write(s, fd, buf).0)
  {
    WriteKeeps(s, fd, buf);
  }

  lemma ReadSplits(s: Fs, fd: int, size: nat)
    requires WellFormed(s) && LegalFd(s, fd)
    ensures 0 <= fd < |s.fds| ==> FdOk(s, s.fds[fd])
    ensures WellFormed(UserFsModel.Read(s, fd, size).0)
  {
    ReadKeeps(s, fd, size);
  }

  lemma CloseSplits(s: Fs, fd: int)
    requires WellFormed(s) && LegalFd(s, fd)
    ensures ValidFd(s, fd) ==> s.fds[fd].value.file in s.files
    ensures WellFormed(UserFsModel.Close(s, fd).0)
    ensures UserFsModel.Close(s, fd) ==
      if !ValidFd(s, fd) then (s.(errno := NoFile), Ret(-1, []))
      else
        var t := DropRef(s, s.fds[fd].value.file);
        (t.(fds := s.fds[fd := None], count := t.count - 1), Ret(0, []))
  {
    if ValidFd(s, fd) {
      CloseKeeps(s, fd);
    }
  }

  /** An open is the reservation, and what is then done with the slot. */
  lemma OpenSplits(s: Fs, name: string, flags: Flags)
    requires WellFormed(s)
    ensures Listed(Reserve(s)) && WellFormed(UserFsModel.Open(s, name, flags).0)
    ensures var t := Reserve(s); var free := FirstFree(t.fds);
      UserFsModel.Open(s, name, flags) ==
        if free < |t.fds| then UserFsModel.OpenAt(t, free, Find(t.order, t.files, name), name, flags)
        else (t.(errno := Internal), Ret(-1, []))
  {
    OpenKeeps(s, Find(s.order, s.files, name), name, flags);
  }

  /** Every file but file i stands; this depends on nothing that file i owns. */
  ghost predicate OthersStand(order: seq<File>, owner: map<object, FileId>, ids: seq<FileId>, files: map<FileId,
      FileRec>, i: nat)
    requires i < |order|
    reads set f | f in order && f != order[i], set o | o in owner && owner[o] != order[i].id
  {
    && Named(order, ids) && Distinct(ids) && (forall id :: id in files <==> id in ids)
    && forall j :: 0 <= j < |order| && j != i ==>
      order[j].id != order[i].id && order[j] != order[i] && Owns(order[j], owner) && Stands(order[j], files)
  }

  lemma SplitRecords(order: seq<File>, owner: map<object, FileId>, ids: seq<FileId>, files: map<FileId, FileRec>,
      i: nat)
    requires RecordsStand(order, owner, ids, files) && i < |order|
    ensures OthersStand(order, owner, ids, files, i)
    ensures var f := order[i]; f.Valid() && f.id in files && files[f.id] == FileRec(f.name, f.refs, f.isDel, f.content)
    ensures forall o :: o in order[i].repr ==> o in owner && owner[o] == order[i].id
    ensures forall f :: f in order ==> f !in owner
  {
    hide File.Valid;
    assert Stands(order[i], files) && Owns(order[i], owner);
    assert forall j :: 0 <= j < |order| && j != i ==> ids[j] != ids[i];
  }

  /** The records after file i was written: its content is new, and it owns its new blocks. */
  lemma JoinRecords(order: seq<File>, owner: map<object, FileId>, ids: seq<FileId>, files: map<FileId, FileRec>, i: nat)
    requires i < |order| && OthersStand(order, owner, ids, files, i)
    requires order[i].Valid() && order[i] !in owner && order[i].id in files
    requires var f := order[i]; files[f.id] == FileRec(f.name, f.refs, f.isDel, files[f.id].content)
    requires forall o :: o in order[i].repr && o in owner ==> owner[o] == order[i].id
    requires forall f :: f in order ==> f !in order[i].repr
    ensures RecordsStand(order, owner + map o | o in order[i].repr :: order[i].id, ids,
      files[order[i].id := files[order[i].id].(content := order[i].content)])
  {
    hide File.Valid;
  }

  /** One file's record changes and the others stand as before. */
  lemma RecordsUpdate(order: seq<File>, owner: map<object, FileId>, ids: seq<FileId>, files: map<FileId,
      FileRec>, i: nat, rec: FileRec)
    requires Named(order, ids) && Distinct(ids) && (forall id :: id in files <==> id in ids)
    requires i < |order| && Stands(order[i], files[order[i].id := rec])
    requires forall j :: 0 <= j < |order| ==> Owns(order[j], owner) && (j != i ==> Stands(order[j], files))
    ensures RecordsStand(order, owner, ids, files[order[i].id := rec])
  {
    hide File.Valid, Owns;
    forall j | 0 <= j < |order| ensures Stands(order[j], files[order[i].id := rec]) {
      assert j != i ==> ids[j] != ids[i];
    }
  }

  lemma InsertMembers<T>(s: seq<T>, x: T)
    ensures forall y :: y in Insert(s, x) <==> y == x || y in s
  {
    if s != [] {
      assert s == [s[0]] + s[1..];
    }
  }

  lemma StandsLater(f: File, files: map<FileId, FileRec>, files': map<FileId, FileRec>)
    requires Stands(f, files) && f.id in files' && files'[f.id] == files[f.id]
    ensures Stands(f, files')
  {
  }

  lemma StandsNew(f: File, files: map<FileId, FileRec>)
    requires f.Valid() && f.refs == 0 && !f.isDel && f.content == []
    ensures Stands(f, files[f.id := FileRec(f.name, 0, false, [])])
  {
  }

  lemma NextIdIsNew(s: Fs)
    requires WellFormed(s)
    ensures s.nextId !in s.files
  {
    assert s.nextId in s.files ==> FileOk(s, s.nextId);
  }

  lemma CreateStands(order: seq<File>, owner: map<object, FileId>, s: Fs, file: File)
    requires RecordsStand(order, owner, s.order, s.files) && WellFormed(s)
    requires file.id == s.nextId && Owns(file, owner) && file.Valid()
    requires file.refs == 0 && !file.isDel && file.content == []
    ensures var t := Create(s, file.name); RecordsStand(Insert(order, file), owner, t.order, t.files)
  {
    hide WellFormed, File.Valid, Owns, Stands, Distinct;
    var t := Create(s, file.name);
    var order' := Insert(order, file);
    NextIdIsNew(s);
    StandsNew(file, s.files);
    InsertKeeps(s.order, s.nextId);
    forall i | 0 <= i < |order'| ensures Stands(order'[i], t.files) && Owns(order'[i], owner)
      && order'[i].id == t.order[i] {
      if order != [] && i != 1 {
        var k := if i == 0 then 0 else i - 1;
        assert order'[i] == order[k] && t.order[i] == s.order[k];
        assert order[k].id in s.files;
        StandsLater(order[k], s.files, t.files);
      }
    }
  }

  lemma CreateSlots(descs: array<FileDesc?>, order: seq<File>, s: Fs, order': seq<File>, name: string)
    requires SlotsStand(descs, s.fds, order, s.files) && WellFormed(s)
    requires forall f :: f in order ==> f in order'
    ensures SlotsStand(descs, s.fds, order', Create(s, name).files)
  {
    forall k | 0 <= k < |s.fds| ensures FdOk(s, s.fds[k]) {
    }
    SlotsKeep(descs, s.fds, order, s.files, order', Create(s, name).files);
  }

  lemma DeleteStands(order: seq<File>, owner: map<object, FileId>, s: Fs, i: nat)
    requires RecordsStand(order, owner, s.order, s.files) && i < |order| && order[i].refs <= 0
    ensures order[i].id in s.files
    ensures var t := FreeFile(s, order[i].id);
      RecordsStand(order[..i] + order[i + 1..], owner, t.order, t.files)
  {
    hide File.Valid, Owns, Stands, Distinct, Without;
    IdsDiffer(order, owner, s.order, s.files);
    assert order[i] in order;
    var t := FreeFile(s, order[i].id);
    var order' := order[..i] + order[i + 1..];
    WithoutAt(s.order, i);
    WithoutKeeps(s.order, order[i].id);
    forall j | 0 <= j < |order'| ensures Stands(order'[j], t.files) && Owns(order'[j], owner)
      && order'[j].id == t.order[j] {
      var k := if j < i then j else j + 1;
      assert order'[j] == order[k] && Owns(order[k], owner);
      assert order[k].id == s.order[k] && order[k] in order;
      StandsLater(order[k], s.files, t.files);
    }
  }

  lemma IdsDiffer(order: seq<File>, owner: map<object, FileId>, ids: seq<FileId>, files: map<FileId, FileRec>)
    requires RecordsStand(order, owner, ids, files)
    ensures forall i, j :: 0 <= i < j < |order| ==> order[i] != order[j] && order[i].id != order[j].id
    ensures forall f :: f in order ==> f !in owner && f.id in files && files[f.id].refs == f.refs
  {
    forall i, j | 0 <= i < j < |order| ensures order[i] != order[j] && order[i].id != order[j].id {
      assert ids[i] == order[i].id && ids[j] == order[j].id;
    }
  }

  lemma {:induction false} WithoutAt(ids: seq<FileId>, i: nat)
    requires i < |ids| && Distinct(ids)
    ensures var r := Without(ids, ids[i]);
      |r| == |ids| - 1 && forall j :: 0 <= j < |r| ==> r[j] == ids[if j < i then j else j + 1]
  {
    if i > 0 {
      assert forall k :: 0 <= k < |ids| - 1 ==> ids[1..][k] == ids[k + 1];
      WithoutAt(ids[1..], i - 1);
    }
  }

  /** The slots stand for their records when files come and go that no slot names. */
  lemma SlotsKeep(descs: array<FileDesc?>, fds: seq<Option<Fd>>,
                  order: seq<File>, files: map<FileId, FileRec>, order': seq<File>, files': map<FileId, FileRec>)
    requires SlotsStand(descs, fds, order, files)
    requires forall f :: f in order && f.id in files' ==> f in order'
    requires forall k :: 0 <= k < |fds| && fds[k].Some? && fds[k].value.file in files' ==> fds[k].value.file in files
    ensures SlotsStand(descs, fds, order', files')
  {
    forall k | 0 <= k < descs.Length ensures SlotStands(descs[k], fds[k], order', files') {
      assert SlotStands(descs[k], fds[k], order, files);
    }
  }

  /** The slot the scan of lines 92-97 stops at. */
  lemma {:induction false} FirstFreeIs(fds: seq<Option<Fd>>, i: nat)
    requires i <= |fds| && forall k :: 0 <= k < i ==> fds[k].Some?
    requires i < |fds| ==> fds[i].None?
    ensures FirstFree(fds) == i
  {
    if i > 0 {
      assert forall k :: 0 <= k < i - 1 ==> fds[1..][k] == fds[k + 1];
      FirstFreeIs(fds[1..], i - 1);
    }
  }
}
