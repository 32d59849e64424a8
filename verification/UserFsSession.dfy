/** Whole sessions on the heap: from an empty file system, any legal sequence of calls gives
    what the flat model gives. */
module UserFsSession {
  import opened Common
  import opened UserFsModel
  import opened UserFsNames
  import opened UserFsCode

  /** What the calls of a run return, one after the other. */
  ghost function Outcomes(s: Fs, calls: seq<Call>): seq<Ret>
    requires LegalRun(s, calls)
    decreases |calls|
  {
    if calls == [] then []
    else
      var (t, ret) := Apply(s, calls[0]);
      [ret] + Outcomes(t, calls[1..])
  }

  /** Objects that did not exist when the method began. */
  twostate predicate New(new fs: UserFs)
    reads fs, fs.descs
  {
    && fresh(fs) && fresh(fs.descs)
    && (forall i :: 0 <= i < |fs.order| ==> fresh(fs.order[i]))
    && (forall o :: o in fs.owner.Keys ==> fresh(o))
    && (forall k :: 0 <= k < fs.descs.Length ==> fs.descs[k] == null || fresh(fs.descs[k]))
  }

  /** One call, on the heap. */
  method Perform(fs: UserFs, call: Call) returns (ret: Ret)
    requires fs.Valid() && Legal(fs.model, call)
    modifies fs, fs.descs, fs.descs[..], fs.order, fs.owner.Keys
    ensures fs.Valid() && fs.Grown()
    ensures WellFormed(old(fs.model)) && (fs.model, ret) == Apply(old(fs.model), call)
  {
    hide FilesStand, SlotsStand, WellFormed, Open, Close, Delete, Write, Read;
    var r;
    match call
    case OpenCall(name, flags) =>
      r := fs.Open(name, flags);
      ret := Ret(r, []);
    case CloseCall(fd) =>
      r := fs.Close(fd);
      ret := Ret(r, []);
    case DeleteCall(name) =>
      r := fs.Delete(name);
      ret := Ret(r, []);
    case WriteCall(fd, buf) =>
      r := fs.Write(fd, buf);
      ret := Ret(r, []);
    case ReadCall(fd, size) =>
      var buf := new byte[size];
      r := fs.Read(fd, buf, size);
      ret := Ret(r, buf[..Max(r, 0)]);
  }

  /** Every legal session returns exactly what the file system of flat byte sequences returns. */
  method Session(calls: seq<Call>) returns (rets: seq<Ret>)
    requires LegalRun(EMPTY, calls)
    ensures rets == Outcomes(EMPTY, calls)
  {
    hide FilesStand, SlotsStand, WellFormed, Apply;
    var fs := new UserFs();
    rets := [];
    for i := 0 to |calls|
      invariant fs.Valid() && New(fs)
      invariant LegalRun(fs.model, calls[i..])
      invariant rets + Outcomes(fs.model, calls[i..]) == Outcomes(EMPTY, calls)
    {
      assert calls[i..][1..] == calls[i + 1..];
      ghost var order := fs.order;
      assert forall f :: f in order ==> fresh(f);
      var ret := Perform(fs, calls[i]);
      assert forall k :: 0 <= k < |fs.order| ==> fs.order[k] in order || fresh(fs.order[k]);
      rets := rets + [ret];
    }
  }
}
