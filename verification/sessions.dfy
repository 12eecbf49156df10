/**
 * The per-user session record and the process-wide map that holds one per
 * user.
 */
module Sessions {
  import opened TempFiles
  import opened PageInput

  /** The conversation states a session can be in. */
  datatype State = Idle | WaitingPdf | HasPdfs | WaitingPageNumber

  /**
   * The names a file may carry at position `i` of user `u`'s list: the upload
   * made when the list had `i` entries, that upload with a page removed, or
   * (only at position 0) a merge result.
   */
  predicate NamedFor(p: TempPath, u: int, i: nat)
  {
    p == Upload(u, i) || p == Modified(u, i) || (i == 0 && p == Merged(u))
  }

  /** Every entry of `pdfs` carries a name for its own position. */
  predicate WellNamed(pdfs: seq<TempPath>, u: int)
  {
    forall i :: 0 <= i < |pdfs| ==> NamedFor(pdfs[i], u, i)
  }

  /** Well-named lists belong to their user and never list one file twice. */
  lemma WellNamedDistinct(pdfs: seq<TempPath>, u: int)
    requires WellNamed(pdfs, u)
    ensures forall i :: 0 <= i < |pdfs| ==> pdfs[i].user == u
    ensures forall i, j :: 0 <= i < j < |pdfs| ==> pdfs[i] != pdfs[j]
  {
  }

  /** A user's PDF editing session. */
  class UserSession {
    const userId: int
    var pdfs: seq<TempPath>
    var state: State
    var tempData: map<string, int>

    /**
     * The session invariant every handler keeps: the list is well named, a
     * session with PDFs in hand has at least one, and a session waiting for a
     * page number has recorded the page count.
     */
    ghost predicate Valid()
      reads this
    {
      && WellNamed(pdfs, userId)
      && (state == HasPdfs ==> |pdfs| > 0)
      && (state == WaitingPageNumber ==> |pdfs| > 0 && PageCountKey in tempData)
    }

    /** Every listed file exists in `fs`. */
    ghost predicate OwnsFiles(fs: FileSystem)
      reads this, fs
    {
      forall p :: p in pdfs ==> p in fs.files
    }

    constructor (userId: int)
      ensures Valid()
      ensures this.userId == userId && pdfs == [] && state == Idle && tempData == map[]
    {
      this.userId := userId;
      pdfs := [];
      state := Idle;
      tempData := map[];
    }

    method AddPdf(path: TempPath)
      modifies this
      ensures pdfs == old(pdfs) + [path]
      ensures state == old(state) && tempData == old(tempData)
    {
      pdfs := pdfs + [path];
    }

    /**
     * Deletes every listed file that still exists (a file already gone is
     * skipped, never an error), then empties the list and the scratch data
     * and returns to `Idle`.
     */
    method Clear(fs: FileSystem)
      modifies this, fs
      ensures Valid()
      ensures pdfs == [] && tempData == map[] && state == Idle
      ensures fs.files == old(fs.files) - PathSet(old(pdfs))
      ensures forall p :: p in old(pdfs) ==> p !in fs.files
    {
      var i := 0;
      while i < |pdfs|
        invariant 0 <= i <= |pdfs|
        invariant pdfs == old(pdfs)
        invariant fs.files == old(fs.files) - PathSet(pdfs[..i])
      {
        var path := pdfs[i];
        var present := fs.Exists(path);
        if present {
          var _ := fs.Remove(path);
        }
        assert pdfs[..i + 1] == pdfs[..i] + [path];
        i := i + 1;
      }
      assert pdfs[..i] == pdfs;
      pdfs := [];
      tempData := map[];
      state := Idle;
    }
  }

  /** The process-wide map from user id to session. */
  class SessionStore {
    var sessions: map<int, UserSession>

    /** Each user's session is filed under that user's id and is itself valid. */
    ghost predicate Valid()
      reads this, sessions.Values
    {
      forall u :: u in sessions ==> sessions[u].userId == u && sessions[u].Valid()
    }

    constructor ()
      ensures Valid() && sessions == map[]
    {
      sessions := map[];
    }

    /**
     * Get-or-create: a known user gets the very session already filed and
     * the map is left as it was; an unknown user gets a fresh empty session,
     * filed under the id, and no other entry changes.
     */
    method GetSession(userId: int) returns (s: UserSession)
      requires Valid()
      modifies this
      ensures Valid()
      ensures userId in sessions && s == sessions[userId] && s.userId == userId
      ensures userId in old(sessions) ==> s == old(sessions[userId]) && sessions == old(sessions)
      ensures userId !in old(sessions) ==>
        fresh(s) && sessions == old(sessions)[userId := s]
        && s.pdfs == [] && s.state == Idle && s.tempData == map[]
    {
      if userId !in sessions {
        var created := new UserSession(userId);
        sessions := sessions[userId := created];
      }
      s := sessions[userId];
    }
  }
}
