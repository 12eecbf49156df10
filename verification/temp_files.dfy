/**
 * The bot's temporary files and the directory that holds them.
 *
 * Every file the bot creates lives in the system temporary directory and is
 * named after the user it belongs to:
 *   pdf_<user>_<index>.pdf       a downloaded upload,
 *   modified_<user>_<index>.pdf  the result of removing a page,
 *   merged_<user>.pdf            the result of a merge.
 * Integer formatting cannot produce '_', so two names are equal exactly when
 * their kind, user and index are; the model keeps that structure instead of
 * the strings.
 */
module TempFiles {

  datatype TempPath =
    | Upload(user: int, index: nat)
    | Modified(user: int, index: nat)
    | Merged(user: int)

  /** The paths listed in `s`, as a set. */
  function PathSet(s: seq<TempPath>): set<TempPath>
  {
    set p | p in s
  }

  /** True when `before` and `after` agree on every path that does not belong to user `u`. */
  ghost predicate OthersUntouched(before: set<TempPath>, after: set<TempPath>, u: int)
  {
    forall p: TempPath :: p.user != u ==> (p in after <==> p in before)
  }

  /** The temporary directory, seen as the set of paths that exist in it. */
  class FileSystem {
    var files: set<TempPath>

    constructor ()
      ensures files == {}
    {
      files := {};
    }

    /** `os.path.exists`. */
    method Exists(p: TempPath) returns (b: bool)
      ensures b <==> p in files
    {
      b := p in files;
    }

    /** `os.remove`: `ok` is false exactly when the file was missing and the call would raise. */
    method Remove(p: TempPath) returns (ok: bool)
      modifies this
      ensures ok <==> p in old(files)
      ensures files == old(files) - {p}
    {
      ok := p in files;
      files := files - {p};
    }

    /** A download or a save that creates (or overwrites) `p`. */
    method Write(p: TempPath)
      modifies this
      ensures files == old(files) + {p}
    {
      files := files + {p};
    }
  }
}
