/** The file-descriptor calls in the form the HAL has them: loops over the global pool and
    updates in place. Each is proved equal to the function of the same name in FdPool. */
module FdCalls {
  import opened FdPool
  import opened Words

  class Pool {
    const alt_fd_list: array<Fd>
    var alt_max_fd: int
    var alt_errno: int

    ghost function View(): Table
      reads this`alt_max_fd, alt_fd_list
    {
      Table(alt_fd_list[..], alt_max_fd)
    }

    constructor ()
      ensures View() == InitialTable() && fresh(alt_fd_list)
    {
      alt_fd_list := new Fd[MAX_FD](i => Fd(if i < 3 then Some(NULL_DEVICE) else None, 0, 0));
      alt_max_fd, alt_errno := -1, 0;
      new;
      assert alt_fd_list[..] == InitialTable().fds;
    }

    /** Replace one descriptor. */
    method Put(i: nat, fd: Fd)
      requires i < alt_fd_list.Length
      modifies alt_fd_list
      ensures alt_fd_list[..] == old(alt_fd_list[..])[i := fd]
    {
      alt_fd_list[i] := fd;
    }

    method GetFd(dev: Object) returns (rc: int)
      requires Sized(View())
      modifies this`alt_max_fd, alt_fd_list
      ensures (View(), rc) == FdPool.GetFd(old(View()), dev)
    {
      rc := -EMFILE;
      var i := 0;
      while i < MAX_FD
        invariant 0 <= i <= MAX_FD && View() == old(View())
        invariant i <= FirstFree(alt_fd_list[..])
      {
        if alt_fd_list[i].dev.None? {
          Put(i, alt_fd_list[i].(dev := Some(dev)));
          if i > alt_max_fd {
            alt_max_fd := i;
          }
          return i;
        }
        i := i + 1;
      }
    }

    method ReleaseFd(fd: int)
      requires Sized(View()) && fd < MAX_FD
      modifies alt_fd_list
      ensures View() == FdPool.ReleaseFd(old(View()), fd)
    {
      if fd > 2 {
        Put(fd, alt_fd_list[fd].(flags := 0));
        Put(fd, alt_fd_list[fd].(dev := None));
      }
    }

    /** alt_file_locked compares an unsigned index with alt_max_fd; its caller has just
        allocated a descriptor, so alt_max_fd is not negative. */
    method FileLocked(fd: nat) returns (rc: int)
      requires Sized(View()) && fd < MAX_FD && alt_max_fd >= 0
      modifies alt_fd_list
      ensures View() == SetFlags(old(View()), fd, WithDev(old(alt_fd_list[fd].flags)))
      ensures rc == if FdPool.FileLocked(View(), fd) then -EACCES else 0
    {
      Put(fd, alt_fd_list[fd].(flags := WithDev(alt_fd_list[fd].flags)));
      ghost var t := View();
      var i: u32 := 0;
      var last: u32 := U32(alt_max_fd);
      while i <= last
        invariant i <= last + 1 && last == alt_max_fd && View() == t
        invariant forall j :: 0 <= j < i && j != fd ==>
          !(alt_fd_list[j].dev == alt_fd_list[fd].dev && Excl(alt_fd_list[j]))
      {
        if alt_fd_list[i].dev == alt_fd_list[fd].dev && Excl(alt_fd_list[i]) && i != fd {
          assert t.fds[i] == alt_fd_list[i];
          return -EACCES;
        }
        i := i + 1;
      }
      assert forall j :: 0 <= j < MAX_FD ==> t.fds[j] == alt_fd_list[j];
      rc := 0;
    }

    method FdLock(fd: nat) returns (rc: int)
      requires Sized(View()) && fd < MAX_FD
      modifies alt_fd_list
      ensures (View(), rc) == Lock(old(View()), fd)
    {
      ghost var t := View();
      var i := 0;
      while i < alt_max_fd
        invariant 0 <= i && (i <= alt_max_fd || i == 0) && View() == t
        invariant forall j :: 0 <= j < i && j != fd ==> alt_fd_list[j].dev != alt_fd_list[fd].dev
      {
        if i != fd && alt_fd_list[i].dev == alt_fd_list[fd].dev {
          assert t.fds[i] == alt_fd_list[i];
          return -EACCES;
        }
        i := i + 1;
      }
      assert forall j :: 0 <= j < MAX_FD ==> t.fds[j] == alt_fd_list[j];
      Put(fd, alt_fd_list[fd].(flags := WithExcl(alt_fd_list[fd].flags)));
      rc := 0;
    }

    method FdUnlock(fd: nat) returns (rc: int)
      requires Sized(View()) && fd < MAX_FD
      modifies alt_fd_list
      ensures (View(), rc) == Unlock(old(View()), fd)
    {
      Put(fd, alt_fd_list[fd].(flags := WithoutExcl(alt_fd_list[fd].flags)));
      rc := 0;
    }

    /** The value a failed call returns, with errno set. */
    static function Result(rc: int): int { if rc < 0 then -1 else rc }

    method Open(found: Option<Object>, flags: bv32, driver: DriverOpen) returns (fd: int)
      requires Inv(View())
      modifies this, alt_fd_list
      ensures var (t, rc) := FdPool.Open(old(View()), found, flags, driver);
        View() == t && fd == Result(rc) && alt_errno == if rc < 0 then -rc else old(alt_errno)
    {
      var index, status := -1, -ENODEV;
      if found.Some? {
        index := GetFd(found.value);
        if index < 0 {
          status := index;
        } else {
          GetFdResult(old(View()), found.value);
          hide WithDev, UserFlags;
          ghost var t1 := View();
          Put(index, alt_fd_list[index].(flags := UserFlags(flags)));
          var isafs := found.value.FileSystem?;
          if !isafs {
            status := FileLocked(index);
            assert View() == SetFlags(t1, index, WithDev(UserFlags(flags)));
          }
          if isafs || status >= 0 {
            Put(index, alt_fd_list[index].(priv := driver.priv));
            status := driver.rc;
          }
        }
      }
      if status < 0 {
        ReleaseFd(index);
        alt_errno := -status;
        return -1;
      }
      fd := index;
    }

    method Ioctl(file: int, req: Request, driver: Option<int>) returns (rc: int)
      requires Sized(View()) && Names(View(), file)
      modifies this, alt_fd_list
      ensures (View(), rc) == FdPool.Ioctl(old(View()), file, req, driver)
      ensures alt_errno == if rc < 0 then -rc else old(alt_errno)
    {
      if file >= 0 {
        if IsDev(alt_fd_list[file]) && req == TIOCEXCL {
          rc := FdLock(file);
        } else if IsDev(alt_fd_list[file]) && req == TIOCNXCL {
          rc := FdUnlock(file);
        } else if driver.Some? {
          rc := driver.value;
        } else {
          rc := -ENOTTY;
        }
      } else {
        rc := -EBADFD;
      }
      if rc < 0 {
        alt_errno := -rc;
      }
    }

    method Close(fildes: int, driver: Option<int>) returns (r: int)
      requires Sized(View()) && Names(View(), fildes)
      modifies this, alt_fd_list
      ensures var (t, rc) := FdPool.Close(old(View()), fildes, driver);
        View() == t && r == Result(rc) && alt_errno == if rc < 0 then -rc else old(alt_errno)
    {
      if fildes >= 0 {
        var rval := if driver.Some? then driver.value else 0;
        ReleaseFd(fildes);
        if rval < 0 {
          alt_errno := -rval;
          return -1;
        }
        return 0;
      }
      alt_errno := EBADFD;
      r := -1;
    }

    method Fcntl(file: int, cmd: Command) returns (r: int)
      requires Sized(View()) && file < MAX_FD
      modifies this, alt_fd_list
      ensures var (t, rc) := FdPool.Fcntl(old(View()), file, cmd);
        View() == t && r == Result(rc) && alt_errno == if rc < 0 then -rc else old(alt_errno)
    {
      if file >= 0 {
        match cmd {
          case GetFlags =>
            return AsInt(UserFlags(alt_fd_list[file].flags));
          case SetFlagsTo(arg) =>
            Put(file, alt_fd_list[file].(flags := Merged(alt_fd_list[file].flags, arg)));
            return 0;
          case Unknown =>
            alt_errno := EINVAL;
            return -1;
        }
      }
      alt_errno := EBADFD;
      r := -1;
    }

    method OpenFd(fd: nat, found: Option<Object>, flags: bv32, driver: DriverOpen)
      requires Inv(View()) && fd < 3
      modifies this, alt_fd_list
      ensures View() == Redirect(old(View()), fd, found, flags, driver)
    {
      ghost var t := View();
      var old_ := Open(found, flags, driver);
      if old_ >= 0 {
        OpenSucceeds(t, found, flags, driver);
        Put(fd, alt_fd_list[old_]);
        ReleaseFd(old_);
      }
    }

    /** alt_io_redirect. */
    method IoRedirect(names: seq<Option<Object>>, drivers: seq<DriverOpen>)
      requires |names| == 3 && |drivers| == 3 && View() == InitialTable()
      modifies this, alt_fd_list
      ensures View() == Boot(names, drivers)
    {
      InitialInv();
      RedirectKeepsInv(View(), 1, names[0], 1, drivers[0]);
      OpenFd(1, names[0], 1, drivers[0]);
      RedirectKeepsInv(View(), 0, names[1], 0, drivers[1]);
      OpenFd(0, names[1], 0, drivers[1]);
      OpenFd(2, names[2], 1, drivers[2]);
    }
  }
}
