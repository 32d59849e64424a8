/** What every call keeps, over all runs: reference counts, ghosts, slots. */
module UserFsRuns {
  import opened Common
  import opened UserFsModel

  // ---- counting descriptors ----

  lemma {:induction false} RefsUpdate(fds: seq<Option<Fd>>, i: nat, d: Option<Fd>, id: FileId)
    requires i < |fds|
    ensures Refs(fds[i := d], id) ==
      Refs(fds, id) - (if fds[i].Some? && fds[i].value.file == id then 1 else 0)
                    + (if d.Some? && d.value.file == id then 1 else 0)
    ensures Occupied(fds[i := d]) == Occupied(fds) - (if fds[i].Some? then 1 else 0) + (if d.Some? then 1 else 0)
  {
    var last := |fds| - 1;
    if i < last {
      assert fds[i := d][..last] == fds[..last][i := d];
      RefsUpdate(fds[..last], i, d, id);
    } else {
      assert fds[i := d][..last] == fds[..last];
    }
  }

  lemma {:induction false} RefsNones(fds: seq<Option<Fd>>, n: nat, id: FileId)
    ensures Refs(fds + Nones(n), id) == Refs(fds, id)
    ensures Occupied(fds + Nones(n)) == Occupied(fds)
  {
    if n == 0 {
      assert fds + Nones(0) == fds;
    } else {
      assert (fds + Nones(n))[..|fds| + n - 1] == fds + Nones(n - 1);
      RefsNones(fds, n - 1, id);
    }
  }

  lemma {:induction false} RefsPositive(fds: seq<Option<Fd>>, i: nat, id: FileId)
    requires i < |fds| && fds[i].Some? && fds[i].value.file == id
    ensures Refs(fds, id) > 0
  {
    if i < |fds| - 1 {
      RefsPositive(fds[..|fds| - 1], i, id);
    }
  }

  lemma {:induction false} RefsZero(fds: seq<Option<Fd>>, id: FileId)
    requires forall i :: 0 <= i < |fds| && fds[i].Some? ==> fds[i].value.file != id
    ensures Refs(fds, id) == 0
  {
    if fds != [] {
      RefsZero(fds[..|fds| - 1], id);
    }
  }

  lemma {:induction false} OccupiedFull(fds: seq<Option<Fd>>)
    ensures Occupied(fds) <= |fds|
    ensures FirstFree(fds) <= |fds|
    ensures forall i :: 0 <= i < FirstFree(fds) ==> fds[i].Some?
    ensures FirstFree(fds) < |fds| ==> fds[FirstFree(fds)].None?
    ensures FirstFree(fds) == |fds| ==> Occupied(fds) == |fds|
  {
    FreeSlot(fds);
    OccupiedBound(fds);
  }

  lemma {:induction false} FreeSlot(fds: seq<Option<Fd>>)
    ensures FirstFree(fds) <= |fds|
    ensures forall i :: 0 <= i < FirstFree(fds) ==> fds[i].Some?
    ensures FirstFree(fds) < |fds| ==> fds[FirstFree(fds)].None?
  {
    if fds != [] && fds[0].Some? {
      FreeSlot(fds[1..]);
      assert forall i :: 0 <= i < FirstFree(fds[1..]) ==> fds[1..][i] == fds[i + 1];
      forall i | 0 <= i < FirstFree(fds) ensures fds[i].Some? {
        if i > 0 { assert fds[i] == fds[1..][i - 1]; }
      }
    }
  }

  lemma {:induction false} OccupiedBound(fds: seq<Option<Fd>>)
    ensures Occupied(fds) <= |fds|
    ensures (forall i :: 0 <= i < |fds| ==> fds[i].Some?) ==> Occupied(fds) == |fds|
  {
    if fds != [] {
      OccupiedBound(fds[..|fds| - 1]);
    }
  }

  // ---- reserving a slot ----

  /** A slot is always found, and it is the lowest free one: ufs_open never fails for lack of
      a slot, although failed opens leave the counter raised. */
  lemma ReserveFinds(s: Fs)
    requires WellFormed(s)
    ensures var s1 := Reserve(s); var fd := FirstFree(s1.fds);
      && fd < |s1.fds| && s1.fds[fd].None?
      && (forall i :: 0 <= i < fd ==> s1.fds[i].Some?)
      && s1 == s.(fds := s1.fds, count := s.count + 1)
      && s.fds <= s1.fds && (forall i :: |s.fds| <= i < |s1.fds| ==> s1.fds[i].None?)
      && Occupied(s1.fds) < s1.count <= |s1.fds|
      && (forall id :: Refs(s1.fds, id) == Refs(s.fds, id))
  {
    var fds1: seq<Option<Fd>> := if s.fds == [] then [None] else s.fds;
    var fds := Grow(s.fds, s.count);
    forall id ensures Refs(fds, id) == Refs(s.fds, id) && Occupied(fds) == Occupied(s.fds) {
      RefsNones([], 1, id);
      assert [] + Nones(1) == [None];
      RefsNones(fds1, |fds1|, id);
    }
    OccupiedFull(fds);
    assert Refs(fds, 0) == Refs(s.fds, 0);
  }

  lemma ReserveKeeps(s: Fs)
    requires WellFormed(s)
    ensures WellFormed(Reserve(s))
  {
    ReserveFinds(s);
    var s1 := Reserve(s);
    forall id | id in s1.files ensures FileOk(s1, id) {
      assert FileOk(s, id);
    }
    forall i | 0 <= i < |s1.fds| ensures FdOk(s1, s1.fds[i]) {
      if i < |s.fds| { assert FdOk(s, s.fds[i]); }
    }
  }

  // ---- order ----

  lemma InsertKeeps(order: seq<FileId>, id: FileId)
    requires id !in order && Distinct(order)
    ensures Distinct(Insert(order, id))
    ensures forall x :: x in Insert(order, id) <==> x == id || x in order
  {
    if order != [] {
      var o, head, rest := Insert(order, id), order[0], order[1..];
      assert order == [head] + rest && o == [head, id] + rest;
      assert head !in rest && id !in rest;
      assert Distinct(rest);
    }
  }

  lemma {:induction false} WithoutKeeps(order: seq<FileId>, id: FileId)
    requires Distinct(order)
    ensures Distinct(Without(order, id))
    ensures forall x :: x in Without(order, id) <==> x != id && x in order
  {
    if order != [] {
      var head, rest := order[0], order[1..];
      assert order == [head] + rest;
      assert forall i :: 0 <= i < |rest| ==> rest[i] == order[i + 1];
      assert head !in rest && Distinct(rest);
      if head != id {
        WithoutKeeps(rest, id);
        var o := Without(rest, id);
        assert head !in o;
        assert Without(order, id) == [head] + o;
        forall i, j | 0 <= i < j < |o| + 1 ensures ([head] + o)[i] != ([head] + o)[j] {
          assert ([head] + o)[j] == o[j - 1];
          if i > 0 { assert ([head] + o)[i] == o[i - 1]; }
        }
      }
    }
  }

  // ---- every call keeps the state well formed ----

  lemma AttachKeeps(s: Fs, fd: nat, id: FileId, flags: Flags)
    requires WellFormed(s) && fd < |s.fds| && s.fds[fd].None? && id in s.files && Occupied(s.fds) < s.count
    ensures WellFormed(Attach(s, fd, id, flags))
  {
    var s' := Attach(s, fd, id, flags);
    forall x | x in s'.files ensures FileOk(s', x) {
      RefsUpdate(s.fds, fd, s'.fds[fd], x);
      assert FileOk(s, x);
    }
    forall i | 0 <= i < |s'.fds| ensures FdOk(s', s'.fds[i]) {
      assert FdOk(s, s.fds[i]);
    }
    RefsUpdate(s.fds, fd, s'.fds[fd], id);
  }

  lemma CreateKeeps(s: Fs, name: string)
    requires WellFormed(s)
    ensures WellFormed(Create(s, name))
  {
    var s' := Create(s, name);
    forall x | x in s.files ensures x < s.nextId {
      assert FileOk(s, x);
    }
    InsertKeeps(s.order, s.nextId);
    forall i | 0 <= i < |s.fds| ensures FdOk(s', s'.fds[i]) && (s.fds[i].Some? ==> s.fds[i].value.file != s.nextId) {
      assert FdOk(s, s.fds[i]);
    }
    RefsZero(s.fds, s.nextId);
    forall x | x in s'.files ensures FileOk(s', x) {
      if x != s.nextId { assert FileOk(s, x); }
    }
  }

  lemma OpenKeeps(s: Fs, target: Option<FileId>, name: string, flags: Flags)
    requires WellFormed(s) && (target.Some? ==> target.value in s.files)
    ensures WellFormed(OpenAs(s, target, name, flags).0)
  {
    ReserveFinds(s);
    ReserveKeeps(s);
    var s1 := Reserve(s);
    var fd := FirstFree(s1.fds);
    if target.Some? && !s1.files[target.value].isDel {
      AttachKeeps(s1, fd, target.value, flags);
    } else if flags.create {
      CreateKeeps(s1, name);
      AttachKeeps(Create(s1, name), fd, s1.nextId, flags);
    }
  }

  /** Freeing a file that no descriptor points at. */
  lemma FreeKeeps(s: Fs, id: FileId)
    requires id in s.files && s.files[id].refs == Refs(s.fds, id)
    requires Distinct(s.order)
    requires forall x :: x in s.files <==> x in s.order
    requires forall x :: x in s.files && x != id ==> FileOk(s, x)
    requires id < s.nextId && |s.files[id].content| <= MAX_FILE_SIZE
    requires forall i :: 0 <= i < |s.fds| ==> FdOk(s, s.fds[i])
    requires Occupied(s.fds) <= s.count <= |s.fds|
    ensures WellFormed(FreeFile(s, id))
  {
    var s' := FreeFile(s, id);
    if s.files[id].refs == 0 {
      WithoutKeeps(s.order, id);
      forall i | 0 <= i < |s'.fds| ensures FdOk(s', s'.fds[i]) {
        assert FdOk(s, s.fds[i]);
        if s.fds[i].Some? && s.fds[i].value.file == id {
          RefsPositive(s.fds, i, id);
        }
      }
      forall x | x in s'.files ensures FileOk(s', x) {
        assert FileOk(s, x);
      }
    } else {
      assert FileOk(s, id);
    }
  }

  lemma DeleteKeeps(s: Fs, target: Option<FileId>)
    requires WellFormed(s) && (target.Some? ==> target.value in s.files)
    ensures WellFormed(DeleteAs(s, target).0)
  {
    if target.Some? {
      var id := target.value;
      var s1 := s.(files := s.files[id := s.files[id].(isDel := true)]);
      assert FileOk(s, id);
      forall x | x in s1.files && x != id ensures FileOk(s1, x) {
        assert FileOk(s, x);
      }
      forall i | 0 <= i < |s1.fds| ensures FdOk(s1, s1.fds[i]) {
        assert FdOk(s, s.fds[i]);
      }
      FreeKeeps(s1, id);
    }
  }

  lemma CloseKeeps(s: Fs, fd: int)
    requires WellFormed(s) && LegalFd(s, fd) && ValidFd(s, fd)
    ensures s.fds[fd].value.file in s.files
    ensures WellFormed(Close(s, fd).0)
  {
    assert FdOk(s, s.fds[fd]);
    var id := s.fds[fd].value.file;
    assert FileOk(s, id);
    var rec := s.files[id].(refs := s.files[id].refs - 1);
    // The C code frees the file before it clears the slot; the result is the same.
    var s1 := s.(files := s.files[id := rec], fds := s.fds[fd := None], count := s.count - 1);
    forall x | x in s1.files
      ensures s1.files[x].refs == Refs(s1.fds, x) && (x != id ==> FileOk(s1, x))
    {
      RefsUpdate(s.fds, fd, None, x);
      assert FileOk(s, x);
    }
    RefsUpdate(s.fds, fd, None, id);
    forall i | 0 <= i < |s1.fds| ensures FdOk(s1, s1.fds[i]) {
      assert FdOk(s, s.fds[i]);
    }
    var s' := Close(s, fd).0;
    if rec.refs == 0 && rec.isDel {
      FreeKeeps(s1, id);
      assert s' == FreeFile(s1, id);
    } else {
      assert s' == s1;
      assert FileOk(s1, id);
    }
  }

  /** Writing never shortens a file, and ends at most at its new end. */
  lemma OverlayLength(content: seq<byte>, pos: nat, buf: seq<byte>)
    requires pos <= |content|
    ensures |Overlay(content, pos, buf)| == Max(|content|, pos + |buf|)
  {
  }

  lemma WriteKeeps(s: Fs, fd: int, buf: seq<byte>)
    requires WellFormed(s) && LegalFd(s, fd)
    ensures 0 <= fd < |s.fds| ==> FdOk(s, s.fds[fd])
    ensures WellFormed(Write(s, fd, buf).0)
  {
    if ValidFd(s, fd) && !s.fds[fd].value.mode.ReadOnly? && s.fds[fd].value.pos + |buf| <= MAX_FILE_SIZE {
      var d := s.fds[fd].value;
      assert FdOk(s, s.fds[fd]);
      var rec := s.files[d.file];
      var content := Overlay(rec.content, d.pos, buf);
      OverlayLength(rec.content, d.pos, buf);
      MoveKeeps(s, fd, d.pos + |buf|, content);
      assert Write(s, fd, buf).0 ==
        s.(files := s.files[d.file := rec.(content := content)], fds := s.fds[fd := Some(d.(pos := d.pos + |buf|))]);
    }
  }

  /** A descriptor moves inside its file, whose content may have grown. */
  lemma MoveKeeps(s: Fs, fd: nat, pos: nat, content: seq<byte>)
    requires WellFormed(s) && ValidFd(s, fd)
    requires var d := s.fds[fd].value;
      d.file in s.files && |s.files[d.file].content| <= |content| <= MAX_FILE_SIZE && pos <= |content|
    ensures var d := s.fds[fd].value;
      WellFormed(s.(files := s.files[d.file := s.files[d.file].(content := content)],
                    fds := s.fds[fd := Some(d.(pos := pos))]))
  {
    var d := s.fds[fd].value;
    var d' := Some(d.(pos := pos));
    var s' := s.(files := s.files[d.file := s.files[d.file].(content := content)], fds := s.fds[fd := d']);
    forall x | x in s'.files ensures FileOk(s', x) {
      RefsUpdate(s.fds, fd, d', x);
      assert FileOk(s, x);
    }
    RefsUpdate(s.fds, fd, d', 0);
    forall i | 0 <= i < |s'.fds| ensures FdOk(s', s'.fds[i]) {
      assert FdOk(s, s.fds[i]);
    }
  }

  lemma ReadKeeps(s: Fs, fd: int, size: nat)
    requires WellFormed(s) && LegalFd(s, fd)
    ensures 0 <= fd < |s.fds| ==> FdOk(s, s.fds[fd])
    ensures WellFormed(Read(s, fd, size).0)
  {
    if ValidFd(s, fd) && !s.fds[fd].value.mode.WriteOnly? {
      var d := s.fds[fd].value;
      assert FdOk(s, s.fds[fd]);
      var rec := s.files[d.file];
      assert FileOk(s, d.file);
      MoveKeeps(s, fd, d.pos + Min(size, |rec.content| - d.pos), rec.content);
      assert s.files[d.file := rec.(content := rec.content)] == s.files;
    }
  }

  /** Every legal call keeps reference counts, ghosts and slots in order. */
  lemma WellFormedInductive(s: Fs, call: Call)
    requires WellFormed(s) && Legal(s, call)
    ensures WellFormed(Apply(s, call).0)
  {
    match call
    case OpenCall(name, flags) => OpenKeeps(s, Find(s.order, s.files, name), name, flags);
    case CloseCall(fd) => if ValidFd(s, fd) { CloseKeeps(s, fd); }
    case DeleteCall(name) => DeleteKeeps(s, Find(s.order, s.files, name));
    case WriteCall(fd, buf) => WriteKeeps(s, fd, buf);
    case ReadCall(fd, size) => ReadKeeps(s, fd, size);
  }

  // ---- what bytes a reader sees ----

  /** A write that is let through. */
  predicate Writable(s: Fs, fd: int, n: nat) {
    ValidFd(s, fd) && !s.fds[fd].value.mode.ReadOnly? && s.fds[fd].value.pos + n <= MAX_FILE_SIZE
  }

  /** After a write, another descriptor on the same file reads the new bytes where they went
      and the old ones elsewhere, up to the new end of the file. */
  lemma ReadSeesWrite(s: Fs, fd: int, buf: seq<byte>, g: int, size: nat)
    requires WellFormed(s) && Writable(s, fd, |buf|)
    requires ValidFd(s, g) && g != fd && !s.fds[g].value.mode.WriteOnly?
    requires s.fds[g].value.file == s.fds[fd].value.file
    ensures FdOk(s, s.fds[fd]) && FdOk(s, s.fds[g])
    ensures WellFormed(Write(s, fd, buf).0) && FdOk(Write(s, fd, buf).0, s.fds[g])
    ensures
      var was, at, from := s.files[s.fds[g].value.file].content, s.fds[fd].value.pos, s.fds[g].value.pos;
      var data := Read(Write(s, fd, buf).0, g, size).1.data;
      && |data| == Min(size, Max(|was|, at + |buf|) - from)
      && forall k :: 0 <= k < |data| ==>
        data[k] == if at <= from + k < at + |buf| then buf[from + k - at] else was[from + k]
  {
    assert FdOk(s, s.fds[fd]) && FdOk(s, s.fds[g]);
    WriteKeeps(s, fd, buf);
    var t := Write(s, fd, buf).0;
    assert t.fds[g] == s.fds[g];
    OverlayLength(s.files[s.fds[fd].value.file].content, s.fds[fd].value.pos, buf);
  }

  /** Writing in two pieces through one descriptor is writing once. */
  lemma WriteInPieces(s: Fs, fd: int, a: seq<byte>, b: seq<byte>)
    requires WellFormed(s) && Writable(s, fd, |a + b|)
    ensures FdOk(s, s.fds[fd]) && WellFormed(Write(s, fd, a).0) && FdOk(Write(s, fd, a).0, Write(s, fd, a).0.fds[fd])
    ensures Write(Write(s, fd, a).0, fd, b).0 == Write(s, fd, a + b).0
  {
    assert FdOk(s, s.fds[fd]);
    WriteKeeps(s, fd, a);
    var d := s.fds[fd].value;
    var content := s.files[d.file].content;
    var t := Write(s, fd, a).0;
    assert FdOk(t, t.fds[fd]);
    assert Overlay(Overlay(content, d.pos, a), d.pos + |a|, b) == Overlay(content, d.pos, a + b);
    assert Write(t, fd, b).0.files == Write(s, fd, a + b).0.files;
  }
}
