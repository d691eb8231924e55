/**
 The file operations the edit transaction is built on. A disk holds named files and temporary files; every
 operation asks a schedule whether the operating system carries it out, refuses it, or does not support it,
 so a contract that holds for every schedule holds for every pattern of failures. A refused operation
 changes nothing.
 */
module Disk {
  import opened Wrappers
  import opened Utf8
  import opened Plan

  datatype Permissions = Permissions(readonly: bool, mode: nat)

  datatype File = File(bytes: seq<byte>, permissions: Permissions)

  type Files = map<FileTarget, File>

  datatype Io = Works | Fails | Unsupported

  datatype IoError = NotFound | AlreadyExists | NotSupported | Other

  datatype Location = Named(target: FileTarget) | Temp(id: nat)

  datatype MoveFailure = MoveFailure(error: IoError, destinationLeft: bool)

  class Disk {
    var files: Files
    var temps: map<nat, File>
    var nextTemp: nat
    var clock: nat
    const io: nat -> Io

    constructor (files: Files, io: nat -> Io)
      ensures Valid() && this.files == files && this.io == io && clock == 0
    {
      this.files, this.temps, this.nextTemp, this.clock, this.io := files, map[], 0, 0, io;
    }

    ghost predicate Valid()
      reads this
    {
      forall id :: id in temps ==> id < nextTemp
    }

    /** No operation between the two times was refused. */
    ghost predicate Quiet(from: nat, until: nat)
    {
      forall n :: from <= n < until ==> io(n) != Fails
    }

    function Lookup(at: Location): Option<File>
      reads this
    {
      match at
      case Named(target) => if target in files then Some(files[target]) else None
      case Temp(id) => if id in temps then Some(temps[id]) else None
    }

    method Tick() returns (answer: Io)
      modifies `clock
      ensures clock == old(clock) + 1 && answer == io(old(clock))
    {
      answer := io(clock);
      clock := clock + 1;
    }

    method Read(target: FileTarget) returns (r: Result<seq<byte>, IoError>)
      modifies `clock
      ensures old(clock) < clock
      ensures r.Ok? ==> target in files && r.value == files[target].bytes
      ensures r == Err(NotFound) ==> target !in files
      ensures Quiet(old(clock), clock) ==> if target in files then r.Ok? else r == Err(NotFound)
    {
      var answer := Tick();
      if answer == Fails {
        return Err(Other);
      }
      return if target in files then Ok(files[target].bytes) else Err(NotFound);
    }

    /** `fs::metadata` and `fs::symlink_metadata`. */
    method Stat(target: FileTarget) returns (r: Result<Permissions, IoError>)
      modifies `clock
      ensures old(clock) < clock
      ensures r.Ok? ==> target in files && r.value == files[target].permissions
      ensures r == Err(NotFound) ==> target !in files
      ensures Quiet(old(clock), clock) ==> if target in files then r.Ok? else r == Err(NotFound)
    {
      var answer := Tick();
      if answer == Fails {
        return Err(Other);
      }
      return if target in files then Ok(files[target].permissions) else Err(NotFound);
    }

    method WriteTemp(bytes: seq<byte>, permissions: Permissions) returns (r: Result<nat, IoError>)
      requires Valid()
      modifies `temps, `nextTemp, `clock
      ensures Valid() && old(clock) < clock
      ensures r.Ok? ==> r.value !in old(temps) && temps == old(temps)[r.value := File(bytes, permissions)]
      ensures r.Err? ==> temps == old(temps)
      ensures Quiet(old(clock), clock) ==> r.Ok?
    {
      var answer := Tick();
      if answer == Fails {
        return Err(Other);
      }
      temps := temps[nextTemp := File(bytes, permissions)];
      r := Ok(nextTemp);
      nextTemp := nextTemp + 1;
    }

    method Remove(at: Location) returns (r: Result<(), IoError>)
      requires Valid()
      modifies `files, `temps, `clock
      ensures Valid() && old(clock) < clock
      ensures r.Ok? ==> old(Lookup(at)).Some?
      ensures r.Ok? && at.Named? ==> files == old(files) - {at.target} && temps == old(temps)
      ensures r.Ok? && at.Temp? ==> files == old(files) && temps == old(temps) - {at.id}
      ensures r.Err? ==> files == old(files) && temps == old(temps)
      ensures Quiet(old(clock), clock) && old(Lookup(at)).Some? ==> r.Ok?
    {
      var answer := Tick();
      if answer == Fails {
        return Err(Other);
      }
      if Lookup(at) == None {
        return Err(NotFound);
      }
      match at {
        case Named(target) => files := files - {target};
        case Temp(id) => temps := temps - {id};
      }
      return Ok(());
    }

    /** The files after what is at `from` has moved to `to`. */
    ghost function Moved(from: Location, to: FileTarget): Files
      requires Lookup(from).Some?
      reads this
    {
      match from
      case Named(target) => (files - {target})[to := files[target]]
      case Temp(id) => files[to := temps[id]]
    }

    /** Everything a move may do to the temporary files. */
    twostate predicate TempsMoved(from: Location)
      reads this
    {
      forall id :: id in old(temps) && from != Temp(id) ==> id in temps && temps[id] == old(temps[id])
    }

    /** `fs::rename`: replaces what is at `to`. */
    method Replace(from: Location, to: FileTarget) returns (r: Result<(), IoError>)
      requires Valid()
      modifies `files, `temps, `clock
      ensures Valid() && old(clock) < clock && TempsMoved(from)
      ensures r.Ok? ==> old(Lookup(from)).Some? && files == old(Moved(from, to))
      ensures r.Err? ==> files == old(files) && temps == old(temps)
      ensures Quiet(old(clock), clock) && old(Lookup(from)).Some? ==> r.Ok?
    {
      var answer := Tick();
      if answer == Fails {
        return Err(Other);
      }
      match from {
        case Named(target) =>
          if target !in files {
            return Err(NotFound);
          }
          files := (files - {target})[to := files[target]];
        case Temp(id) =>
          if id !in temps {
            return Err(NotFound);
          }
          files, temps := files[to := temps[id]], temps - {id};
      }
      return Ok(());
    }

    /** `renameat2` with `RENAME_NOREPLACE`, where the file system has it. */
    method RenameNoReplace(from: Location, to: FileTarget) returns (r: Result<(), IoError>)
      requires Valid()
      modifies `files, `temps, `clock
      ensures Valid() && old(clock) < clock && TempsMoved(from)
      ensures r.Ok? ==> old(Lookup(from)).Some? && to !in old(files) && files == old(Moved(from, to))
      ensures r.Err? ==> files == old(files) && temps == old(temps)
      ensures Quiet(old(clock), clock) && old(Lookup(from)).Some? && to !in old(files) ==>
                r.Ok? || r == Err(NotSupported)
    {
      var answer := Tick();
      match answer {
        case Unsupported => return Err(NotSupported);
        case Fails => return Err(Other);
        case Works =>
          if to in files {
            return Err(AlreadyExists);
          }
          match from {
            case Named(target) =>
              if target !in files {
                return Err(NotFound);
              }
              files := (files - {target})[to := files[target]];
            case Temp(id) =>
              if id !in temps {
                return Err(NotFound);
              }
              files, temps := files[to := temps[id]], temps - {id};
          }
          return Ok(());
      }
    }

    method HardLink(from: Location, to: FileTarget) returns (r: Result<(), IoError>)
      modifies `files, `clock
      ensures old(clock) < clock
      ensures r.Ok? ==>
                old(Lookup(from)).Some? && to !in old(files) && files == old(files)[to := old(Lookup(from)).value]
      ensures r.Err? ==> files == old(files)
      ensures Quiet(old(clock), clock) && old(Lookup(from)).Some? && to !in old(files) ==>
                r.Ok? || r == Err(NotSupported)
    {
      var answer := Tick();
      match answer {
        case Unsupported => return Err(NotSupported);
        case Fails => return Err(Other);
        case Works =>
          if to in files {
            return Err(AlreadyExists);
          }
          var source := Lookup(from);
          if source == None {
            return Err(NotFound);
          }
          files := files[to := source.value];
          return Ok(());
      }
    }

    /**
     `move_no_clobber` and `unlink_source`: an atomic rename that refuses an existing destination; failing
     that, a hard link whose source is then unlinked; failing that, a check followed by a rename. When the
     link was made but neither name can be unlinked, the destination is left beside the source.
     */
    method MoveNoClobber(from: Location, to: FileTarget) returns (r: Result<(), MoveFailure>)
      requires Valid()
      modifies `files, `temps, `clock
      ensures Valid() && old(clock) < clock && TempsMoved(from)
      ensures r.Ok? ==> old(Lookup(from)).Some? && to !in old(files) && files == old(Moved(from, to))
      ensures r.Err? && !r.error.destinationLeft ==> files == old(files)
      ensures r.Err? && r.error.destinationLeft ==>
                && old(Lookup(from)).Some? && to !in old(files)
                && files == old(files)[to := old(Lookup(from)).value]
      ensures Quiet(old(clock), clock) && old(Lookup(from)).Some? && to !in old(files) ==> r.Ok?
    {
      var renamed := RenameNoReplace(from, to);
      if renamed.Ok? {
        return Ok(());
      }
      if renamed.error != NotSupported {
        return Err(MoveFailure(renamed.error, false));
      }
      var linked := HardLink(from, to);
      if linked.Ok? {
        var unlinked := Remove(from);
        if unlinked.Ok? {
          return Ok(());
        }
        var cleaned := Remove(Named(to));
        assert cleaned.Ok? ==> files == old(files);
        return Err(MoveFailure(unlinked.error, cleaned.Err?));
      }
      if linked.error != NotSupported {
        return Err(MoveFailure(linked.error, false));
      }
      var occupied := Stat(to);
      if occupied.Ok? {
        return Err(MoveFailure(AlreadyExists, false));
      }
      if occupied.error != NotFound {
        return Err(MoveFailure(occupied.error, false));
      }
      var replaced := Replace(from, to);
      return if replaced.Ok? then Ok(()) else Err(MoveFailure(replaced.error, false));
    }
  }
}
