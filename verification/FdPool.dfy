/** The file-descriptor pool and its exclusive device locks, as functions on table values
    (alt_dev.c, alt_get_fd.c, alt_release_fd.c, alt_open.c, alt_fd_lock.c, alt_fd_unlock.c,
    alt_ioctl.c, alt_close.c, alt_fcntl.c, alt_io_redirect.c). */
module FdPool {

  const MAX_FD: nat := 8

  const EXCL: bv32 := 0x8000_0000
  const DEV: bv32 := 0x4000_0000
  const FLAGS_MASK: bv32 := 0xC000_0000
  const FCNTL_MASK: bv32 := 0x0000_4008   // O_NONBLOCK | O_APPEND

  const EACCES: int := 13
  const ENODEV: int := 19
  const EINVAL: int := 22
  const EMFILE: int := 24
  const ENOTTY: int := 25
  const EBADFD: int := 81

  /** The caller's flags with the two bookkeeping bits removed. */
  function UserFlags(f: bv32): (r: bv32)
    ensures r & EXCL == 0 && r & DEV == 0
  {
    f & !FLAGS_MASK
  }

  function WithDev(f: bv32): (r: bv32)
    ensures r & DEV != 0 && r & EXCL == f & EXCL
  {
    f | DEV
  }

  function WithExcl(f: bv32): (r: bv32)
    ensures r & EXCL != 0 && r & DEV == f & DEV
  {
    f | EXCL
  }

  function WithoutExcl(f: bv32): (r: bv32)
    ensures r & EXCL == 0 && r & DEV == f & DEV
  {
    f & !EXCL
  }

  /** F_SETFL replaces the two flags it knows. */
  function Merged(f: bv32, arg: bv32): (r: bv32)
    ensures r & EXCL == f & EXCL && r & DEV == f & DEV
  {
    (f & !FCNTL_MASK) | (arg & FCNTL_MASK)
  }

  /** A flag word as a call returns it. */
  function AsInt(f: bv32): int {
    f as int
  }

  lemma MergedBits(f: bv32, arg: bv32)
    ensures Merged(f, arg) & FCNTL_MASK == arg & FCNTL_MASK
    ensures Merged(f, arg) & !FCNTL_MASK == f & !FCNTL_MASK
  {
  }

  datatype Option<T> = None | Some(value: T)

  /** The two registries are disjoint: a registered object is a device or a filesystem. */
  datatype Object = Device(id: nat) | FileSystem(id: nat)

  datatype Fd = Fd(dev: Option<Object>, priv: int, flags: bv32)

  datatype Table = Table(fds: seq<Fd>, maxFd: int)

  predicate Excl(f: Fd) { f.flags & EXCL != 0 }

  predicate IsDev(f: Fd) { f.flags & DEV != 0 }

  predicate Sized(t: Table) {
    |t.fds| == MAX_FD && -1 <= t.maxFd < MAX_FD
  }

  /** Descriptors f and g are different and refer to the same open object. */
  predicate Share(t: Table, f: nat, g: nat)
    requires f < |t.fds| && g < |t.fds|
  {
    f != g && t.fds[f].dev.Some? && t.fds[f].dev == t.fds[g].dev
  }

  /** What every call keeps. The last conjunct is what makes the short scan of alt_fd_lock safe:
      a lock can be granted while another descriptor for the device is open, but only when that
      descriptor is the highest one. */
  ghost predicate Inv(t: Table) {
    && Sized(t)
    && (forall i :: 0 <= i < 3 ==> t.fds[i].dev.Some?)
    && (forall i :: 0 <= i < MAX_FD && t.fds[i].dev.Some? ==> i <= 2 || i <= t.maxFd)
    && (forall i :: 0 <= i < MAX_FD && (Excl(t.fds[i]) || IsDev(t.fds[i])) ==>
          t.fds[i].dev.Some? && t.fds[i].dev.value.Device? && t.maxFd >= 3)
    && (forall f, g :: 0 <= f < MAX_FD && 0 <= g < MAX_FD && Excl(t.fds[f]) && Share(t, f, g) ==> f < g)
  }

  // ---- the operations ----

  function FirstFree(fds: seq<Fd>): (i: nat)
    ensures i <= |fds|
    ensures i < |fds| ==> fds[i].dev.None?
    ensures forall j :: 0 <= j < i ==> fds[j].dev.Some?
  {
    if fds == [] || fds[0].dev.None? then 0 else 1 + FirstFree(fds[1..])
  }

  function GetFd(t: Table, dev: Object): (Table, int) {
    var i := FirstFree(t.fds);
    if i < |t.fds| then
      (Table(t.fds[i := t.fds[i].(dev := Some(dev))], if i > t.maxFd then i else t.maxFd), i)
    else (t, -EMFILE)
  }

  function ReleaseFd(t: Table, i: int): Table
    requires i < |t.fds|
  {
    if i > 2 then t.(fds := t.fds[i := t.fds[i].(flags := 0, dev := None)]) else t
  }

  /** alt_file_locked: some other descriptor up to and including maxFd holds the device. */
  predicate FileLocked(t: Table, i: nat)
    requires i < |t.fds|
  {
    exists j :: 0 <= j < |t.fds| && j <= t.maxFd && j != i && t.fds[j].dev == t.fds[i].dev && Excl(t.fds[j])
  }

  /** alt_fd_lock's test: some other descriptor strictly below maxFd refers to the device. */
  predicate LockRefused(t: Table, i: nat)
    requires i < |t.fds|
  {
    exists j :: 0 <= j < |t.fds| && j < t.maxFd && j != i && t.fds[j].dev == t.fds[i].dev
  }

  function SetFlags(t: Table, i: nat, flags: bv32): Table
    requires i < |t.fds|
  {
    t.(fds := t.fds[i := t.fds[i].(flags := flags)])
  }

  function Lock(t: Table, i: nat): (Table, int)
    requires i < |t.fds|
  {
    if LockRefused(t, i) then (t, -EACCES) else (SetFlags(t, i, WithExcl(t.fds[i].flags)), 0)
  }

  function Unlock(t: Table, i: nat): (Table, int)
    requires i < |t.fds|
  {
    (SetFlags(t, i, WithoutExcl(t.fds[i].flags)), 0)
  }

  /** What the open() of a driver or filesystem does: a status and a private pointer. */
  datatype DriverOpen = DriverOpen(rc: int, priv: int)

  /** alt_open: the second component is the descriptor, or minus the error number. */
  function Open(t: Table, found: Option<Object>, flags: bv32, driver: DriverOpen): (Table, int)
    requires Sized(t)
  {
    if found.None? then (t, -ENODEV)
    else
      var (t1, i) := GetFd(t, found.value);
      if i < 0 then (t1, i)
      else
        var user := UserFlags(flags);
        var t2 := SetFlags(t1, i, if found.value.Device? then WithDev(user) else user);
        if found.value.Device? && FileLocked(t2, i) then (ReleaseFd(t2, i), -EACCES)
        else
          var t3 := t2.(fds := t2.fds[i := t2.fds[i].(priv := driver.priv)]);
          if driver.rc < 0 then (ReleaseFd(t3, i), driver.rc) else (t3, i)
  }

  datatype Request = TIOCEXCL | TIOCNXCL | Other

  /** The open descriptor a call names: the original dereferences its device unchecked. */
  predicate Names(t: Table, file: int) {
    file < |t.fds| && (file >= 0 ==> t.fds[file].dev.Some?)
  }

  function Ioctl(t: Table, file: int, req: Request, driver: Option<int>): (Table, int)
    requires Names(t, file)
  {
    if file < 0 then (t, -EBADFD)
    else if IsDev(t.fds[file]) && req == TIOCEXCL then Lock(t, file)
    else if IsDev(t.fds[file]) && req == TIOCNXCL then Unlock(t, file)
    else (t, if driver.Some? then driver.value else -ENOTTY)
  }

  function Close(t: Table, file: int, driver: Option<int>): (Table, int)
    requires Names(t, file)
  {
    if file < 0 then (t, -EBADFD)
    else (ReleaseFd(t, file), if driver.Some? && driver.value < 0 then driver.value else 0)
  }

  datatype Command = GetFlags | SetFlagsTo(arg: bv32) | Unknown

  /** alt_fcntl checks only that the number is not negative. */
  function Fcntl(t: Table, file: int, cmd: Command): (Table, int)
    requires file < |t.fds|
  {
    if file < 0 then (t, -EBADFD)
    else match cmd
      case GetFlags => (t, AsInt(UserFlags(t.fds[file].flags)))
      case SetFlagsTo(arg) =>
        (SetFlags(t, file, Merged(t.fds[file].flags, arg)), 0)
      case Unknown => (t, -EINVAL)
  }

  /** alt_open_fd: open by name, move the result to descriptor `fd`, free the temporary. */
  function Redirect(t: Table, fd: nat, found: Option<Object>, flags: bv32, driver: DriverOpen): (r: Table)
    requires Sized(t) && fd < 3
    ensures Sized(r)
  {
    var (t1, old_) := Open(t, found, flags, driver);
    if 0 <= old_ < |t1.fds| then ReleaseFd(t1.(fds := t1.fds[fd := t1.fds[old_]]), old_) else t1
  }

  const NULL_DEVICE := Device(0)

  function InitialTable(): Table {
    Table(seq(MAX_FD, i => Fd(if i < 3 then Some(NULL_DEVICE) else None, 0, 0)), -1)
  }

  // ---- every call keeps the invariant ----

  lemma InitialInv()
    ensures Inv(InitialTable())
  {
  }

  lemma GetFdResult(t: Table, dev: Object)
    requires Inv(t)
    ensures var (t', i) := GetFd(t, dev);
      && (i < 0 <==> forall j :: 0 <= j < MAX_FD ==> t.fds[j].dev.Some?)
      && (i < 0 ==> i == -EMFILE && t' == t)
      && (i >= 0 ==> 3 <= i < MAX_FD && t.fds[i].dev.None? && t'.maxFd >= i
                     && forall j :: 0 <= j < i ==> t.fds[j].dev.Some?)
  {
  }

  /** Changing nothing but flags, and no lock bit from clear to set, keeps the invariant. */
  lemma FlagsKeepInv(t: Table, i: nat, flags: bv32)
    requires Inv(t) && i < MAX_FD
    requires flags & EXCL != 0 ==> Excl(t.fds[i])
    requires flags & DEV != 0 ==> IsDev(t.fds[i])
    ensures Inv(SetFlags(t, i, flags))
  {
    var t' := SetFlags(t, i, flags);
    forall f: nat, g: nat | f < MAX_FD && g < MAX_FD && Excl(t'.fds[f]) && Share(t', f, g)
      ensures f < g
    {
      assert Share(t, f, g);
    }
  }

  lemma LockKeepsInv(t: Table, i: nat)
    requires Inv(t) && i < MAX_FD && IsDev(t.fds[i])
    ensures Inv(Lock(t, i).0)
  {
    hide WithExcl;
    if !LockRefused(t, i) {
      var t' := Lock(t, i).0;
      forall f: nat, g: nat | f < MAX_FD && g < MAX_FD && Excl(t'.fds[f]) && Share(t', f, g)
        ensures f < g
      {
        assert Share(t, f, g);
        if f == i {
          assert t.fds[g].dev == t.fds[i].dev;
          assert g == t.maxFd;
        }
      }
    }
  }

  lemma UnlockKeepsInv(t: Table, i: nat)
    requires Inv(t) && i < MAX_FD
    ensures Inv(Unlock(t, i).0)
  {
    hide WithoutExcl;
    FlagsKeepInv(t, i, WithoutExcl(t.fds[i].flags));
  }

  lemma ReleaseKeepsInv(t: Table, i: int)
    requires Inv(t) && i < MAX_FD
    ensures Inv(ReleaseFd(t, i))
  {
    var t' := ReleaseFd(t, i);
    forall f: nat, g: nat | f < MAX_FD && g < MAX_FD && Excl(t'.fds[f]) && Share(t', f, g)
      ensures f < g
    {
      assert Share(t, f, g);
    }
  }

  /** No exclusive descriptor for `dev` is held. */
  ghost predicate NoneExclusive(t: Table, dev: Object)
  {
    forall j :: 0 <= j < |t.fds| && t.fds[j].dev == Some(dev) ==> !Excl(t.fds[j])
  }

  /** A freshly allocated descriptor keeps the invariant when nobody holds its device. */
  lemma AllocateKeepsInv(t: Table, i: nat, fd: Fd, maxFd: int)
    requires Inv(t) && 3 <= i < MAX_FD && t.fds[i].dev.None?
    requires fd.dev.Some? && !Excl(fd) && (IsDev(fd) ==> fd.dev.value.Device?)
    requires NoneExclusive(t, fd.dev.value) && i <= maxFd < MAX_FD && t.maxFd <= maxFd
    ensures Inv(Table(t.fds[i := fd], maxFd))
  {
    var t' := Table(t.fds[i := fd], maxFd);
    forall f: nat, g: nat | f < MAX_FD && g < MAX_FD && Excl(t'.fds[f]) && Share(t', f, g)
      ensures f < g
    {
      assert f != i;
      if g != i {
        assert Share(t, f, g);
      }
    }
  }

  /** The descriptor open fills in, before the driver sees it. */
  function Prepared(old_: Fd, dev: Object, flags: bv32): Fd {
    var user := UserFlags(flags);
    old_.(dev := Some(dev), flags := if dev.Device? then WithDev(user) else user)
  }

  /** The four ways through open. */
  lemma OpenShape(t: Table, found: Option<Object>, flags: bv32, driver: DriverOpen)
    requires Inv(t)
    ensures var (t', rc) := Open(t, found, flags, driver);
      var i := FirstFree(t.fds);
      if found.None? then t' == t && rc == -ENODEV
      else if i >= MAX_FD then t' == t && rc == -EMFILE
      else
        var maxFd := if i > t.maxFd then i else t.maxFd;
        var fd := Prepared(t.fds[i], found.value, flags);
        var t2 := Table(t.fds[i := fd], maxFd);
        var t3 := Table(t.fds[i := fd.(priv := driver.priv)], maxFd);
        if found.value.Device? && FileLocked(t2, i) then t' == ReleaseFd(t2, i) && rc == -EACCES
        else if driver.rc < 0 then t' == ReleaseFd(t3, i) && rc == driver.rc
        else t' == t3 && rc == i
  {
    hide UserFlags, WithDev, FileLocked, ReleaseFd;
    var i := FirstFree(t.fds);
    if found.Some? && i < MAX_FD {
      var t1 := GetFd(t, found.value).0;
      var fd := Prepared(t.fds[i], found.value, flags);
      assert SetFlags(t1, i, fd.flags).fds == t.fds[i := fd];
      assert t.fds[i := fd][i := fd.(priv := driver.priv)] == t.fds[i := fd.(priv := driver.priv)];
    }
  }

  lemma PreparedBits(old_: Fd, dev: Object, flags: bv32)
    ensures var fd := Prepared(old_, dev, flags);
      !Excl(fd) && (IsDev(fd) <==> dev.Device?) && fd.dev == Some(dev)
  {
  }

  /** alt_file_locked scans far enough: it finds a holder exactly when there is one. */
  lemma FileLockedIff(t: Table, i: nat, fd: Fd, maxFd: int)
    requires Inv(t) && 3 <= i < MAX_FD && t.fds[i].dev.None? && fd.dev.Some? && !Excl(fd)
    requires i <= maxFd < MAX_FD && t.maxFd <= maxFd
    ensures FileLocked(Table(t.fds[i := fd], maxFd), i) <==> !NoneExclusive(t, fd.dev.value)
  {
    var t2 := Table(t.fds[i := fd], maxFd);
    assert forall j :: 0 <= j < MAX_FD && j != i ==> t2.fds[j] == t.fds[j];
  }

  /** Taking a descriptor and giving it back changes no other. */
  lemma FreedAgain(t: Table, i: nat, fd: Fd, maxFd: int)
    requires Inv(t) && 3 <= i < MAX_FD && t.fds[i].dev.None?
    requires i <= maxFd < MAX_FD && t.maxFd <= maxFd
    ensures var t' := ReleaseFd(Table(t.fds[i := fd], maxFd), i);
      && Inv(t')
      && t'.fds == t.fds[i := fd.(flags := 0, dev := None)]
  {
    var t' := ReleaseFd(Table(t.fds[i := fd], maxFd), i);
    assert !Excl(t'.fds[i]) && !IsDev(t'.fds[i]);
    forall f: nat, g: nat | f < MAX_FD && g < MAX_FD && Excl(t'.fds[f]) && Share(t', f, g)
      ensures f < g
    {
      assert Share(t, f, g);
    }
  }

  /** A successful open returns the least free descriptor, unlocked, marked as a device exactly
      when it is one, for an object nobody holds exclusively; no other descriptor changes. */
  lemma OpenSucceeds(t: Table, found: Option<Object>, flags: bv32, driver: DriverOpen)
    requires Inv(t) && Open(t, found, flags, driver).1 >= 0
    ensures var (t', rc) := Open(t, found, flags, driver);
      && Inv(t') && found.Some? && 3 <= rc < MAX_FD && t.fds[rc].dev.None?
      && (forall j :: 0 <= j < rc ==> t.fds[j].dev.Some?)
      && t'.fds == t.fds[rc := t'.fds[rc]] && t'.fds[rc].dev == found
      && !Excl(t'.fds[rc]) && (IsDev(t'.fds[rc]) <==> found.value.Device?)
      && NoneExclusive(t, found.value)
  {
    OpenShape(t, found, flags, driver);
    var i := FirstFree(t.fds);
    var fd := Prepared(t.fds[i], found.value, flags);
    var maxFd := if i > t.maxFd then i else t.maxFd;
    PreparedBits(t.fds[i], found.value, flags);
    if found.value.Device? {
      FileLockedIff(t, i, fd, maxFd);
    }
    AllocateKeepsInv(t, i, fd.(priv := driver.priv), maxFd);
  }

  /** A failed open leaves every descriptor's device and flags as they were, except that flags
      left on the least free descriptor are cleared. */
  lemma OpenFails(t: Table, found: Option<Object>, flags: bv32, driver: DriverOpen)
    requires Inv(t) && Open(t, found, flags, driver).1 < 0
    ensures var (t', rc) := Open(t, found, flags, driver);
      && Inv(t')
      && forall j :: 0 <= j < MAX_FD ==>
           && t'.fds[j].dev == t.fds[j].dev
           && (j != FirstFree(t.fds) ==> t'.fds[j] == t.fds[j])
           && (t'.fds[j].flags == t.fds[j].flags || t'.fds[j].flags == 0)
  {
    OpenShape(t, found, flags, driver);
    var i := FirstFree(t.fds);
    if found.Some? && i < MAX_FD {
      var fd := Prepared(t.fds[i], found.value, flags);
      var maxFd := if i > t.maxFd then i else t.maxFd;
      FreedAgain(t, i, fd, maxFd);
      FreedAgain(t, i, fd.(priv := driver.priv), maxFd);
    }
  }

  /** The error reported: no such name, then no free descriptor, then a lock, then the driver. */
  lemma OpenErrors(t: Table, found: Option<Object>, flags: bv32, driver: DriverOpen)
    requires Inv(t)
    ensures var rc := Open(t, found, flags, driver).1;
      var full := forall j :: 0 <= j < MAX_FD ==> t.fds[j].dev.Some?;
      if found.None? then rc == -ENODEV
      else if full then rc == -EMFILE
      else if !NoneExclusive(t, found.value) then rc == -EACCES
      else if driver.rc < 0 then rc == driver.rc
      else rc == FirstFree(t.fds)
  {
    OpenShape(t, found, flags, driver);
    var i := FirstFree(t.fds);
    if found.Some? && i < MAX_FD {
      assert t.fds[i].dev.None?;
      PreparedBits(t.fds[i], found.value, flags);
      FileLockedIff(t, i, Prepared(t.fds[i], found.value, flags), if i > t.maxFd then i else t.maxFd);
    }
  }

  lemma RedirectKeepsInv(t: Table, fd: nat, found: Option<Object>, flags: bv32, driver: DriverOpen)
    requires Inv(t) && fd < 3
    ensures Inv(Redirect(t, fd, found, flags, driver))
  {
    var (t1, old_) := Open(t, found, flags, driver);
    if old_ < 0 {
      OpenFails(t, found, flags, driver);
    } else {
      OpenSucceeds(t, found, flags, driver);
      hide Open;
      var t2 := t1.(fds := t1.fds[fd := t1.fds[old_]]);
      forall f: nat, g: nat | f < MAX_FD && g < MAX_FD && Excl(t2.fds[f]) && Share(t2, f, g)
        ensures f < g
      {
        assert f != fd && f != old_;
        if g != fd {
          assert Share(t1, f, g);
        }
      }
      ReleaseKeepsInv(t2, old_);
    }
  }

  // ---- whole runs ----

  datatype Call =
    | OpenCall(found: Option<Object>, flags: bv32, driver: DriverOpen)
    | CloseCall(file: int, closed: Option<int>)
    | IoctlCall(file: int, req: Request, handled: Option<int>)
    | FcntlCall(file: int, cmd: Command)

  predicate Legal(t: Table, c: Call) {
    Sized(t) &&
    match c
    case OpenCall(_, _, _) => true
    case CloseCall(file, _) => Names(t, file)
    case IoctlCall(file, _, _) => Names(t, file)
    case FcntlCall(file, _) => file < MAX_FD
  }

  function Step(t: Table, c: Call): (Table, int)
    requires Legal(t, c)
  {
    match c
    case OpenCall(found, flags, driver) => Open(t, found, flags, driver)
    case CloseCall(file, closed) => Close(t, file, closed)
    case IoctlCall(file, req, handled) => Ioctl(t, file, req, handled)
    case FcntlCall(file, cmd) => Fcntl(t, file, cmd)
  }

  ghost predicate LegalRun(t: Table, calls: seq<Call>)
    decreases |calls|
  {
    calls == [] || (Legal(t, calls[0]) && LegalRun(Step(t, calls[0]).0, calls[1..]))
  }

  ghost function Run(t: Table, calls: seq<Call>): Table
    requires LegalRun(t, calls)
    decreases |calls|
  {
    if calls == [] then t else Run(Step(t, calls[0]).0, calls[1..])
  }

  lemma StepKeepsInv(t: Table, c: Call)
    requires Inv(t) && Legal(t, c)
    ensures Inv(Step(t, c).0)
  {
    match c {
      case OpenCall(found, flags, driver) =>
        if Open(t, found, flags, driver).1 < 0 {
          OpenFails(t, found, flags, driver);
        } else {
          OpenSucceeds(t, found, flags, driver);
        }
      case CloseCall(file, closed) =>
        if file >= 0 {
          ReleaseKeepsInv(t, file);
        }
      case IoctlCall(file, req, handled) =>
        if file >= 0 && IsDev(t.fds[file]) {
          LockKeepsInv(t, file);
          UnlockKeepsInv(t, file);
        }
      case FcntlCall(file, cmd) =>
        if file >= 0 && cmd.SetFlagsTo? {
          hide Merged;
          FlagsKeepInv(t, file, Merged(t.fds[file].flags, cmd.arg));
        }
    }
  }

  lemma {:induction false} RunKeepsInv(t: Table, calls: seq<Call>)
    requires Inv(t) && LegalRun(t, calls)
    ensures Inv(Run(t, calls))
    decreases |calls|
  {
    if calls != [] {
      StepKeepsInv(t, calls[0]);
      RunKeepsInv(Step(t, calls[0]).0, calls[1..]);
    }
  }

  /** alt_io_redirect on the initial table: standard output, then input, then error. */
  function Boot(names: seq<Option<Object>>, drivers: seq<DriverOpen>): Table
    requires |names| == 3 && |drivers| == 3
  {
    var t1 := Redirect(InitialTable(), 1, names[0], 1, drivers[0]);
    var t2 := Redirect(t1, 0, names[1], 0, drivers[1]);
    Redirect(t2, 2, names[2], 1, drivers[2])
  }

  /** At most one descriptor per object holds it exclusively. */
  ghost predicate Exclusive(t: Table) {
    forall f, g | 0 <= f < |t.fds| && 0 <= g < |t.fds| ::
      Excl(t.fds[f]) && Excl(t.fds[g]) && t.fds[f].dev == t.fds[g].dev ==> f == g
  }

  lemma InvIsExclusive(t: Table)
    requires Inv(t)
    ensures Exclusive(t)
  {
    forall f: nat, g: nat | f < |t.fds| && g < |t.fds|
      ensures Excl(t.fds[f]) && Excl(t.fds[g]) && t.fds[f].dev == t.fds[g].dev ==> f == g
    {
      assert Share(t, f, g) == Share(t, g, f);
    }
  }

  lemma BootKeepsInv(names: seq<Option<Object>>, drivers: seq<DriverOpen>)
    requires |names| == 3 && |drivers| == 3
    ensures Inv(Boot(names, drivers))
  {
    var t1 := Redirect(InitialTable(), 1, names[0], 1, drivers[0]);
    InitialInv();
    RedirectKeepsInv(InitialTable(), 1, names[0], 1, drivers[0]);
    hide Redirect, InitialTable;
    var t2 := Redirect(t1, 0, names[1], 0, drivers[1]);
    RedirectKeepsInv(t1, 0, names[1], 0, drivers[1]);
    RedirectKeepsInv(t2, 2, names[2], 1, drivers[2]);
  }

  /** After any boot and any run of calls, no device has two exclusive holders. */
  lemma MutualExclusion(names: seq<Option<Object>>, drivers: seq<DriverOpen>, calls: seq<Call>)
    requires |names| == 3 && |drivers| == 3
    requires LegalRun(Boot(names, drivers), calls)
    ensures Exclusive(Run(Boot(names, drivers), calls))
  {
    hide *;
    var t := Boot(names, drivers);
    BootKeepsInv(names, drivers);
    RunKeepsInv(t, calls);
    InvIsExclusive(Run(t, calls));
  }

  /** While a device is held, no call gives it another descriptor. */
  lemma HeldDeviceGainsNone(t: Table, c: Call, holder: nat, j: nat)
    requires Inv(t) && Legal(t, c) && holder < MAX_FD && Excl(t.fds[holder])
    requires j < MAX_FD
    ensures |Step(t, c).0.fds| == MAX_FD
    ensures Step(t, c).0.fds[j].dev == t.fds[holder].dev ==> t.fds[j].dev == t.fds[holder].dev
  {
    StepKeepsInv(t, c);
    if c.OpenCall? {
      if Open(t, c.found, c.flags, c.driver).1 < 0 {
        OpenFails(t, c.found, c.flags, c.driver);
      } else {
        OpenSucceeds(t, c.found, c.flags, c.driver);
        hide Open;
        assert t.fds[holder].dev != c.found;
      }
    }
  }

  // ---- what one call undoes ----

  /** Locking and unlocking leaves no trace. */
  lemma LockThenUnlock(t: Table, i: nat)
    requires Inv(t) && i < MAX_FD && !Excl(t.fds[i]) && Lock(t, i).1 == 0
    ensures Unlock(Lock(t, i).0, i).0 == t
  {
  }

  /** Opening and closing restores every descriptor's device and flags; only the high-water mark
      may have risen. */
  lemma OpenThenClose(t: Table, found: Option<Object>, flags: bv32, driver: DriverOpen, closed: Option<int>)
    requires Inv(t) && FreeFlagsZero(t) && Open(t, found, flags, driver).1 >= 0
    ensures var (t1, fd) := Open(t, found, flags, driver);
      && Names(t1, fd)
      && var t2 := Close(t1, fd, closed).0;
         && t2.maxFd == t1.maxFd
         && forall j :: 0 <= j < MAX_FD ==> t2.fds[j].dev == t.fds[j].dev && t2.fds[j].flags == t.fds[j].flags
  {
    OpenSucceeds(t, found, flags, driver);
    hide Open;
  }

  /** What F_GETFL shows after F_SETFL: the two flags it knows as given, the others as before, and
      never the bookkeeping bits. */
  lemma SetThenGetFlags(t: Table, file: nat, arg: bv32)
    requires file < |t.fds|
    ensures var t1 := Fcntl(t, file, SetFlagsTo(arg)).0;
      Fcntl(t1, file, GetFlags) ==
        (t1, AsInt(Merged(UserFlags(t.fds[file].flags), arg)))
  {
    UserOfMerged(t.fds[file].flags, arg);
    hide UserFlags, Merged, AsInt;
  }

  lemma UserOfMerged(f: bv32, arg: bv32)
    ensures UserFlags(Merged(f, arg)) == Merged(UserFlags(f), arg)
  {
    UserIs(f);
    UserIs(Merged(f, arg));
    MergedIs(f, arg);
    MergedIs(UserFlags(f), arg);
    hide UserFlags, Merged;
    Masks(f, arg);
  }

  lemma UserIs(f: bv32)
    ensures UserFlags(f) == f & !FLAGS_MASK
  {
  }

  lemma MergedIs(f: bv32, arg: bv32)
    ensures Merged(f, arg) == (f & !FCNTL_MASK) | (arg & FCNTL_MASK)
  {
  }

  lemma Masks(f: bv32, arg: bv32)
    ensures ((f & !FCNTL_MASK) | (arg & FCNTL_MASK)) & !FLAGS_MASK ==
            ((f & !FLAGS_MASK) & !FCNTL_MASK) | (arg & FCNTL_MASK)
  {
  }

  // ---- what the callers see ----

  /** A flag word without its lock bit, and without both bookkeeping bits. */
  ghost function Unlocked(f: bv32): bv32 { f & 0x7FFF_FFFF }

  ghost function Own(f: bv32): bv32 { f & 0x3FFF_FFFF }

  /** Of t, only the lock bit of descriptor i may have changed. */
  ghost predicate OnlyLockBit(t: Table, t': Table, i: nat)
    requires i < |t.fds|
  {
    && t'.maxFd == t.maxFd && |t'.fds| == |t.fds|
    && (forall j :: 0 <= j < |t.fds| && j != i ==> t'.fds[j] == t.fds[j])
    && t'.fds[i].dev == t.fds[i].dev && t'.fds[i].priv == t.fds[i].priv
    && Unlocked(t'.fds[i].flags) == Unlocked(t.fds[i].flags)
  }

  lemma ExclBits(fd: Fd)
    ensures var on := fd.(flags := WithExcl(fd.flags)); Unlocked(on.flags) == Unlocked(fd.flags) && Excl(on)
    ensures var off := fd.(flags := WithoutExcl(fd.flags)); Unlocked(off.flags) == Unlocked(fd.flags) && !Excl(off)
  {
    SetBit(fd.flags);
    ClearedBit(fd.flags);
    hide WithExcl, WithoutExcl, Unlocked;
  }

  lemma SetBit(f: bv32)
    ensures Unlocked(WithExcl(f)) == Unlocked(f)
  {
  }

  lemma ClearedBit(f: bv32)
    ensures Unlocked(WithoutExcl(f)) == Unlocked(f)
  {
  }

  /** No descriptor is free. */
  ghost predicate Full(t: Table) {
    forall j :: 0 <= j < |t.fds| ==> t.fds[j].dev.Some?
  }

  /** TIOCEXCL on a device: granted, it leaves the descriptor exclusive and changes nothing else; it
      is refused, without effect, exactly when a descriptor below alt_max_fd shares the device. */
  lemma ExclusiveRequest(t: Table, file: nat, driver: Option<int>)
    requires Inv(t) && file < MAX_FD && IsDev(t.fds[file])
    ensures var (t', rc) := Ioctl(t, file, TIOCEXCL, driver);
      if exists j: nat :: j < MAX_FD && j < t.maxFd && Share(t, file, j) then rc == -EACCES && t' == t
      else rc == 0 && OnlyLockBit(t, t', file) && Excl(t'.fds[file])
  {
    assert t.fds[file].dev.Some?;
    hide WithExcl, Excl, IsDev, Unlocked, Inv;
    ExclBits(t.fds[file]);
    if LockRefused(t, file) {
      var j :| 0 <= j < |t.fds| && j < t.maxFd && j != file && t.fds[j].dev == t.fds[file].dev;
      assert Share(t, file, j);
    }
  }

  /** Once it is granted, every open of the device is refused. */
  lemma ExclusiveShutsOut(t: Table, file: nat, driver: Option<int>, flags: bv32, opener: DriverOpen)
    requires Inv(t) && file < MAX_FD && IsDev(t.fds[file]) && Ioctl(t, file, TIOCEXCL, driver).1 == 0
    ensures var t' := Ioctl(t, file, TIOCEXCL, driver).0;
      Inv(t') && Open(t', t.fds[file].dev, flags, opener).1 == if Full(t) then -EMFILE else -EACCES
  {
    var t' := Ioctl(t, file, TIOCEXCL, driver).0;
    assert t.fds[file].dev.Some?;
    LockKeepsInv(t, file);
    ExclusiveRequest(t, file, driver);
    hide Ioctl, Open, LockRefused;
    assert forall j :: 0 <= j < MAX_FD ==> t'.fds[j].dev == t.fds[j].dev;
    OpenErrors(t', t.fds[file].dev, flags, opener);
  }

  /** TIOCNXCL on a device: the descriptor is no longer exclusive, and nothing else changes. */
  lemma SharedRequest(t: Table, file: nat, driver: Option<int>)
    requires Inv(t) && file < MAX_FD && IsDev(t.fds[file])
    ensures var (t', rc) := Ioctl(t, file, TIOCNXCL, driver);
      rc == 0 && OnlyLockBit(t, t', file) && !Excl(t'.fds[file])
  {
    assert file < |t.fds|;
    hide WithoutExcl, Excl, IsDev, Unlocked, Inv;
    ExclBits(t.fds[file]);
  }

  /** When the holder gives its lock up, the device can be opened again. */
  lemma SharedLetsIn(t: Table, file: nat, driver: Option<int>, flags: bv32, opener: DriverOpen)
    requires Inv(t) && file < MAX_FD && Excl(t.fds[file]) && IsDev(t.fds[file])
    ensures var t' := Ioctl(t, file, TIOCNXCL, driver).0;
      Inv(t') && Open(t', t.fds[file].dev, flags, opener).1 ==
        if Full(t) then -EMFILE else if opener.rc < 0 then opener.rc else FirstFree(t.fds)
  {
    var t' := Ioctl(t, file, TIOCNXCL, driver).0;
    UnlockKeepsInv(t, file);
    SharedRequest(t, file, driver);
    InvIsExclusive(t);
    hide Ioctl, Open, Inv;
    assert forall j :: 0 <= j < MAX_FD ==> t'.fds[j].dev == t.fds[j].dev;
    assert NoneExclusive(t', t.fds[file].dev.value);
    FirstFreeSame(t.fds, t'.fds);
    OpenErrors(t', t.fds[file].dev, flags, opener);
  }

  lemma FirstFreeSame(a: seq<Fd>, b: seq<Fd>)
    requires |a| == |b| && forall j :: 0 <= j < |a| ==> a[j].dev == b[j].dev
    ensures FirstFree(a) == FirstFree(b)
  {
  }

  /** Every other request, and any request on a filesystem, is the driver's: the table does not
      change. */
  lemma OtherRequest(t: Table, file: nat, req: Request, driver: Option<int>)
    requires Inv(t) && file < MAX_FD && t.fds[file].dev.Some?
    requires req == Other || t.fds[file].dev.value.FileSystem? || !IsDev(t.fds[file])
    ensures Ioctl(t, file, req, driver).0 == t
    ensures Ioctl(t, file, req, driver).1 == match driver case Some(answer) => answer case None => -25
  {
  }

  /** What the new descriptor is: the caller's flags all but the two bookkeeping bits, and what the
      driver put there; F_GETFL shows those flags. */
  lemma OpenedAs(t: Table, found: Option<Object>, flags: bv32, driver: DriverOpen)
    requires Inv(t) && Open(t, found, flags, driver).1 >= 0
    ensures var (t', i) := Open(t, found, flags, driver);
      && 3 <= i < MAX_FD == |t'.fds| && t'.fds[i].priv == driver.priv
      && Own(t'.fds[i].flags) == Own(flags)
      && t'.maxFd == (if i > t.maxFd then i else t.maxFd)
      && Fcntl(t', i, GetFlags) == (t', Own(flags) as int)
  {
    OpenShape(t, found, flags, driver);
    OpenSucceeds(t, found, flags, driver);
    var fd := Prepared(t.fds[FirstFree(t.fds)], found.value, flags);
    PreparedUser(t.fds[FirstFree(t.fds)], found.value, flags);
    hide Open, Prepared, Own, UserFlags;
  }

  lemma PreparedUser(old_: Fd, dev: Object, flags: bv32)
    ensures var f := Prepared(old_, dev, flags).flags;
      Own(f) == Own(flags) && UserFlags(f) == Own(flags)
  {
    var user := UserFlags(flags);
    OwnIs(flags);
    OwnIs(user);
    OwnIs(WithDev(user));
    OwnTwice(flags);
    OwnWithDev(user);
    hide Own, UserFlags, WithDev;
  }

  lemma OwnIs(f: bv32)
    ensures UserFlags(f) == Own(f)
  {
  }

  lemma OwnTwice(f: bv32)
    ensures Own(Own(f)) == Own(f)
  {
  }

  lemma OwnWithDev(f: bv32)
    ensures Own(WithDev(f)) == Own(f)
  {
  }

  /** Close gives a descriptor above 2 back whatever the driver says, never one of the first three,
      and returns the driver's error if there is one. */
  lemma CloseResult(t: Table, file: nat, driver: Option<int>)
    requires Inv(t) && file < MAX_FD && t.fds[file].dev.Some?
    ensures var (t', rc) := Close(t, file, driver);
      && rc == (if driver.Some? && driver.value < 0 then driver.value else 0)
      && t'.maxFd == t.maxFd && |t'.fds| == |t.fds|
      && (forall j :: 0 <= j < MAX_FD && j != file ==> t'.fds[j] == t.fds[j])
      && (file > 2 ==> t'.fds[file].dev.None? && t'.fds[file].flags == 0)
      && (file <= 2 ==> t'.fds[file] == t.fds[file])
  {
  }

  /** fcntl: the flags without the bookkeeping bits, zero, or the error of an unknown command; only
      F_SETFL changes anything, and only the flags of that descriptor. */
  lemma FcntlResult(t: Table, file: nat, cmd: Command)
    requires Sized(t) && file < MAX_FD
    ensures var (t', rc) := Fcntl(t, file, cmd);
      match cmd
      case GetFlags => t' == t && rc == Own(t.fds[file].flags) as int
      case SetFlagsTo(arg) =>
        && rc == 0 && t'.maxFd == t.maxFd && |t'.fds| == |t.fds|
        && (forall j :: 0 <= j < MAX_FD && j != file ==> t'.fds[j] == t.fds[j])
        && t'.fds[file].dev == t.fds[file].dev && t'.fds[file].priv == t.fds[file].priv
        && t'.fds[file].flags & 0x4008 == arg & 0x4008
        && t'.fds[file].flags & 0xFFFF_BFF7 == t.fds[file].flags & 0xFFFF_BFF7
      case Unknown => t' == t && rc == -22
  {
    match cmd {
      case GetFlags =>
        OwnIs(t.fds[file].flags);
        hide UserFlags, Own;
      case SetFlagsTo(arg) =>
        MergedWords(t.fds[file].flags, arg);
        hide Merged;
      case Unknown =>
    }
  }

  lemma MergedWords(f: bv32, arg: bv32)
    ensures Merged(f, arg) & 0x4008 == arg & 0x4008 && Merged(f, arg) & 0xFFFF_BFF7 == f & 0xFFFF_BFF7
  {
  }

  /** Redirecting a standard descriptor: if the open succeeds, that descriptor is the new object with
      the caller's flags, and the temporary is free again; if not, all devices are as before. */
  lemma RedirectResult(t: Table, fd: nat, found: Option<Object>, flags: bv32, driver: DriverOpen)
    requires Inv(t) && fd < 3
    ensures var r := Redirect(t, fd, found, flags, driver);
      && |r.fds| == MAX_FD
      && (forall j :: 0 <= j < MAX_FD && j != fd ==> r.fds[j].dev == t.fds[j].dev)
      && (forall j :: 0 <= j < MAX_FD && j != fd && j != FirstFree(t.fds) ==> r.fds[j] == t.fds[j])
      && if found.Some? && !Full(t) && NoneExclusive(t, found.value) && driver.rc >= 0 then
           && r.fds[fd].dev == found && r.fds[fd].priv == driver.priv && !Excl(r.fds[fd])
           && Own(r.fds[fd].flags) == Own(flags)
         else r.fds[fd] == t.fds[fd]
  {
    assert Sized(t);
    hide Open, Own, Excl, IsDev, Inv;
    OpenErrors(t, found, flags, driver);
    if Open(t, found, flags, driver).1 < 0 {
      OpenFails(t, found, flags, driver);
    } else {
      OpenSucceeds(t, found, flags, driver);
      OpenedAs(t, found, flags, driver);
      FirstFreeIs(t.fds, Open(t, found, flags, driver).1);
    }
  }

  lemma FirstFreeIs(fds: seq<Fd>, i: nat)
    requires i < |fds| && fds[i].dev.None? && forall j :: 0 <= j < i ==> fds[j].dev.Some?
    ensures FirstFree(fds) == i
  {
  }

  /** While the board boots: nobody holds a lock, and only the standard descriptors are open. */
  ghost predicate Booting(t: Table) {
    Inv(t) && forall j :: 0 <= j < MAX_FD ==> !Excl(t.fds[j]) && (j >= 3 ==> t.fds[j].dev.None?)
  }

  /** What a standard descriptor has become. */
  ghost predicate Stream(before: Fd, after: Fd, found: Option<Object>, flags: bv32, driver: DriverOpen) {
    if found.Some? && driver.rc >= 0 then
      after.dev == found && after.priv == driver.priv && Own(after.flags) == Own(flags)
    else after == before
  }

  lemma RedirectStream(t: Table, fd: nat, found: Option<Object>, flags: bv32, driver: DriverOpen)
    requires Booting(t) && fd < 3
    ensures var r := Redirect(t, fd, found, flags, driver);
      && Booting(r) && Stream(t.fds[fd], r.fds[fd], found, flags, driver)
      && forall j :: 0 <= j < 3 && j != fd ==> r.fds[j] == t.fds[j]
  {
    RedirectKeepsInv(t, fd, found, flags, driver);
    RedirectResult(t, fd, found, flags, driver);
    assert t.fds[3].dev.None? && !Full(t);
    hide Redirect;
    var r := Redirect(t, fd, found, flags, driver);
    forall j | 0 <= j < MAX_FD
      ensures !Excl(r.fds[j]) && (j >= 3 ==> r.fds[j].dev.None?)
    {
      if j >= 3 {
        assert r.fds[j].dev == t.fds[j].dev;
      }
    }
  }

  /** After boot: output, input and error are what their names opened, with the flags O_WRONLY,
      O_RDONLY and O_WRONLY, or the null device; every other descriptor is free. */
  lemma BootStreams(names: seq<Option<Object>>, drivers: seq<DriverOpen>)
    requires |names| == 3 && |drivers| == 3
    ensures var t, none := Boot(names, drivers), Fd(Some(NULL_DEVICE), 0, 0);
      && Booting(t)
      && Stream(none, t.fds[1], names[0], 1, drivers[0])
      && Stream(none, t.fds[0], names[1], 0, drivers[1])
      && Stream(none, t.fds[2], names[2], 1, drivers[2])
  {
    BootingAtFirst();
    var t0 := InitialTable();
    var t1 := Redirect(t0, 1, names[0], 1, drivers[0]);
    hide Redirect, InitialTable, Stream, Booting;
    RedirectStream(t0, 1, names[0], 1, drivers[0]);
    var t2 := Redirect(t1, 0, names[1], 0, drivers[1]);
    RedirectStream(t1, 0, names[1], 0, drivers[1]);
    RedirectStream(t2, 2, names[2], 1, drivers[2]);
  }

  lemma BootingAtFirst()
    ensures Booting(InitialTable()) && forall j :: 0 <= j < 3 ==> InitialTable().fds[j] == Fd(Some(NULL_DEVICE), 0, 0)
  {
    InitialInv();
  }

  // ---- two promises the code does not keep, and exactly when it does ----

  /** The documentation of alt_fd_lock: granted if no other open descriptor refers to the device. */
  ghost predicate Alone(t: Table, i: nat)
    requires i < |t.fds|
  {
    forall j :: 0 <= j < |t.fds| ==> !Share(t, i, j)
  }

  /** The lock is granted exactly when the documentation says, unless the only other descriptor
      for the device is the highest one ever allocated. */
  lemma LockAsDocumentedIff(t: Table, i: nat)
    requires Inv(t) && i < MAX_FD && IsDev(t.fds[i])
    ensures (Lock(t, i).1 == 0 <==> Alone(t, i))
            <==> !Share(t, i, t.maxFd) || LockRefused(t, i)
  {
    assert t.fds[i].dev.Some?;
    if !LockRefused(t, i) {
      forall j: nat | j < MAX_FD && Share(t, i, j) ensures j == t.maxFd {
      }
    } else {
      var j :| 0 <= j < |t.fds| && j < t.maxFd && j != i && t.fds[j].dev == t.fds[i].dev;
      assert Share(t, i, j);
    }
  }

  /** Two descriptors, 3 and 4, for one device: 3 is locked although 4 is open. */
  lemma LockGrantedWhileShared()
    ensures var fd := Fd(Some(Device(1)), 0, DEV);
      var t := Table(InitialTable().fds[3 := fd][4 := fd], 4);
      Inv(t) && Share(t, 3, 4) && Lock(t, 3).1 == 0
  {
  }

  ghost predicate FreeFlagsZero(t: Table) {
    forall j :: 0 <= j < |t.fds| && t.fds[j].dev.None? ==> t.fds[j].flags == 0
  }

  /** fcntl does not check that its descriptor is open: it keeps free descriptors' flags at zero
      exactly when the descriptor is open or the new flags are. */
  lemma FcntlKeepsZeroIff(t: Table, file: nat, arg: bv32)
    requires Inv(t) && FreeFlagsZero(t) && file < MAX_FD
    ensures FreeFlagsZero(Fcntl(t, file, SetFlagsTo(arg)).0)
            <==> t.fds[file].dev.Some? || arg & FCNTL_MASK == 0
  {
    var t' := Fcntl(t, file, SetFlagsTo(arg)).0;
    if t.fds[file].dev.None? {
      MergedOfZero(arg);
      assert t'.fds[file].flags == arg & FCNTL_MASK;
    }
    hide Merged;
    assert forall j :: 0 <= j < MAX_FD && j != file ==> t'.fds[j] == t.fds[j];
  }

  lemma MergedOfZero(arg: bv32)
    ensures Merged(0, arg) == arg & FCNTL_MASK
  {
  }

  /** Every other call keeps them at zero, and then a failed open restores devices and flags
      exactly. */
  lemma OthersKeepZero(t: Table, c: Call)
    requires Inv(t) && FreeFlagsZero(t) && Legal(t, c) && !c.FcntlCall?
    ensures FreeFlagsZero(Step(t, c).0)
    ensures c.OpenCall? && Step(t, c).1 < 0 ==>
      forall j :: 0 <= j < MAX_FD ==>
        Step(t, c).0.fds[j].dev == t.fds[j].dev && Step(t, c).0.fds[j].flags == t.fds[j].flags
  {
    if c.OpenCall? {
      if Open(t, c.found, c.flags, c.driver).1 < 0 {
        OpenFails(t, c.found, c.flags, c.driver);
      } else {
        OpenSucceeds(t, c.found, c.flags, c.driver);
      }
      hide Open;
    } else if c.IoctlCall? && c.file >= 0 && IsDev(t.fds[c.file]) {
      assert t.fds[c.file].dev.Some?;
    }
  }
}
