/**
  The file system and the cancellation token as src/workspace_edits.rs uses them.

  The file system is a map from paths to contents.  Every call on it may fail: a failed
  rename or removal changes nothing, a failed write may leave anything in the file it was
  writing.  `history` records the state after every call that can change it, so that what
  holds between any two calls can be stated; `observed` records what a transaction asks and
  compares, with the state of the files then and its place in `history`.
 */
module FileSystems {
  import opened Wrappers
  import opened Utf8

  datatype Role = Replacement | Original

  /** A file name: an ordinary one, or `.deixis-<id>-<index>.<suffix>`. */
  datatype Name = Ordinary(text: string) | Transaction(id: nat, index: nat, role: Role)

  datatype Path = Path(directory: string, name: Name)

  type Files = map<Path, Bytes>

  function Lookup(files: Files, path: Path): Option<Bytes> {
    if path in files then Some(files[path]) else None
  }

  datatype RemoveOutcome = Removed | NotFound | RemoveFailed

  /** A question to the cancellation token, or a comparison of a file: its answer, the files then, and how long `history` was. */
  datatype Observation =
    | Asked(cancelled: bool, state: Files, moment: nat)
    | Compared(path: Path, text: Option<Text>, state: Files, moment: nat)

  class FileSystem {
    var files: Files
    ghost var history: seq<Files>
    ghost var observed: seq<Observation>
    /** How many calls have failed that had no reason in `files` to fail. */
    ghost var faults: nat

    method Rename(from: Path, to: Path) returns (ok: bool)
      modifies `files, `history, `faults
      ensures ok ==> from in old(files) && files == (old(files) - {from})[to := old(files)[from]]
      ensures !ok ==> files == old(files)
      ensures history == old(history) + [files]
      ensures faults >= old(faults) && (!ok ==> from !in old(files) || faults > old(faults))
    {
      var fails: bool := *;
      ok := from in files && !fails;
      if ok {
        files := (files - {from})[to := files[from]];
      }
      if fails {
        faults := faults + 1;
      }
      history := history + [files];
    }

    method Remove(path: Path) returns (outcome: RemoveOutcome)
      modifies `files, `history, `faults
      ensures outcome == Removed ==> path in old(files) && files == old(files) - {path}
      ensures outcome == NotFound ==> path !in old(files)
      ensures outcome != Removed ==> files == old(files)
      ensures history == old(history) + [files]
      ensures faults >= old(faults) && (outcome == RemoveFailed ==> faults > old(faults))
    {
      var fails: bool := *;
      if fails {
        faults := faults + 1;
        outcome := RemoveFailed;
      } else if path !in files {
        outcome := NotFound;
      } else {
        files := files - {path};
        outcome := Removed;
      }
      history := history + [files];
    }

    /** Opening with `create_new` */
    method CreateNew(path: Path) returns (ok: bool)
      modifies `files, `history, `faults
      ensures ok ==> path !in old(files) && files == old(files)[path := []]
      ensures !ok ==> files == old(files)
      ensures history == old(history) + [files]
      ensures faults >= old(faults) && (!ok ==> path in old(files) || faults > old(faults))
    {
      var fails: bool := *;
      ok := path !in files && !fails;
      if ok {
        files := files[path := []];
      }
      if fails {
        faults := faults + 1;
      }
      history := history + [files];
    }

    /** `write_all` and `sync_all`; a failed write leaves whatever part was written. */
    method Write(path: Path, contents: Bytes) returns (ok: bool)
      modifies `files, `history, `faults
      ensures ok ==> files == old(files)[path := contents]
      ensures path in files && forall p :: p != path ==> Lookup(files, p) == Lookup(old(files), p)
      ensures history == old(history) + [files]
      ensures faults >= old(faults) && (!ok ==> faults > old(faults))
    {
      var fails: bool := *;
      ok := !fails;
      if fails {
        faults := faults + 1;
        var partial: Bytes := *;
        files := files[path := partial];
      } else {
        files := files[path := contents];
      }
      history := history + [files];
    }

    /** `canonicalize`, whose answer must be the path itself, and `read_to_string`, which also fails on what is not UTF-8 */
    method ReadResolved(path: Path) returns (text: Option<Text>)
      modifies `faults, `observed
      ensures text.Some? ==> Lookup(files, path) == Some(Encode(text.value))
      ensures faults >= old(faults)
      ensures text.None? ==> path !in files || Decode(files[path]).None? || faults > old(faults)
      ensures observed == old(observed) + [Compared(path, text, files, |history|)]
    {
      text := None;
      var resolvesToItself := Try();
      if resolvesToItself {
        var readable := Try();
        text := if readable && path in files then Decode(files[path]) else None;
      }
      observed := observed + [Compared(path, text, files, |history|)];
    }

    /** A call that reads or sets nothing but metadata */
    method Try() returns (ok: bool)
      modifies this`faults
      ensures faults >= old(faults) && (!ok ==> faults > old(faults))
    {
      ok := *;
      if !ok {
        faults := faults + 1;
      }
    }
  }

  /** `CancellationToken`; once it is cancelled it stays so. */
  class Cancellation {
    var cancelled: bool

    /** The answer depends on `cancelled` alone; `fs` records it. */
    method IsCancelled(ghost fs: FileSystem) returns (yes: bool)
      modifies this, fs`observed
      ensures (old(cancelled) ==> yes) && (yes ==> cancelled)
      ensures fs.observed == old(fs.observed) + [Asked(yes, fs.files, |fs.history|)]
    {
      var now: bool := *;
      cancelled := cancelled || now;
      yes := cancelled;
      fs.observed := fs.observed + [Asked(yes, fs.files, |fs.history|)];
    }
  }
}
