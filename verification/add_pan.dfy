/**
 * The "add user" panel's save: refused for an empty or existing name,
 * otherwise the deleted rows are removed, the user's directories created,
 * the surviving pending files copied in, and both caches emptied.
 */
module AddPan {
  import opened Strings
  import opened Enrollment

  /** The copies among `ops` are exactly the pending files of `p` whose rows were not deleted. */
  ghost predicate CopiesKept(ops: seq<FileOp>, p: Panel)
  {
    forall s :: (exists c :: c in ops && c.Copy? && c.src == s) <==> s in Pending(p) && s !in p.todelete
  }

  /** The commands of an accepted save, in the order they are issued. */
  function AcceptedOps(p: Panel, dirs: Dirs, name: string): (ops: seq<FileOp>)
    ensures |ops| >= |p.todelete| + 5
    ensures forall i :: 0 <= i < |p.todelete| ==> ops[i] == Remove(p.todelete[i])
    ensures ops[|p.todelete|..|p.todelete| + 3] == [MakeDir(UserDir(dirs, name)), MakeDir(FacesDir(dirs, name)), MakeDir(VoicesDir(dirs, name))]
    ensures ops[|ops| - 2..] == [ClearDir(dirs.cacheCamera), ClearDir(dirs.cacheAudio)]
  {
    var removals := Removals(p.todelete);
    var dirsMade := [MakeDir(UserDir(dirs, name)), MakeDir(FacesDir(dirs, name)), MakeDir(VoicesDir(dirs, name))];
    var ops := removals + dirsMade + Copies(p, dirs, name) + ClearCaches(dirs);
    assert ops[|p.todelete|..|p.todelete| + 3] == dirsMade;
    ops
  }

  /** Surrounding commands that copy nothing leave the copies of the middle part. */
  lemma CopiesAmong(pre: seq<FileOp>, mid: seq<FileOp>, post: seq<FileOp>)
    requires forall c :: c in pre ==> !c.Copy?
    requires forall c :: c in post ==> !c.Copy?
    ensures forall c :: c in pre + mid + post && c.Copy? <==> c in mid && c.Copy?
  {
  }

  /** An accepted save's copies are exactly the kept pending files, landing in the user's directories. */
  lemma AcceptedCopies(p: Panel, dirs: Dirs, name: string)
    ensures CopiesKept(AcceptedOps(p, dirs, name), p)
    ensures forall c :: c in AcceptedOps(p, dirs, name) && c.Copy? ==>
      LandsIn(c.dest, FacesDir(dirs, name)) || LandsIn(c.dest, VoicesDir(dirs, name))
    ensures forall c :: (c in AcceptedOps(p, dirs, name) && c.Copy? && c.src in p.takenImages + p.uploadedImages &&
      c.src !in p.takenAudios + p.uploadedAudios) ==> LandsIn(c.dest, FacesDir(dirs, name))
    ensures forall c :: (c in AcceptedOps(p, dirs, name) && c.Copy? && c.src in p.takenAudios + p.uploadedAudios &&
      c.src !in p.takenImages + p.uploadedImages) ==> LandsIn(c.dest, VoicesDir(dirs, name))
    ensures forall c :: (c in AcceptedOps(p, dirs, name) && c.Copy? && c.src in p.uploadedAudios &&
      c.src !in p.takenImages + p.uploadedImages + p.takenAudios) ==> c.dest == FreshFile(VoicesDir(dirs, name), Extension(c.src))
  {
    var removals := Removals(p.todelete);
    var pre := removals + [MakeDir(UserDir(dirs, name)), MakeDir(FacesDir(dirs, name)), MakeDir(VoicesDir(dirs, name))];
    var copies := Copies(p, dirs, name);
    assert forall c :: c in removals ==> !c.Copy?;
    CopiesAmong(pre, copies, ClearCaches(dirs));
    assert AcceptedOps(p, dirs, name) == pre + copies + ClearCaches(dirs);
  }

  /**
   * `savechanges`: accepted exactly when the name is non-empty and not an
   * entry of the dataset listing `users`. An accepted save removes the
   * deleted rows' files, creates the user, faces and voices directories,
   * copies the kept pending files into them, empties both caches and
   * forgets the pending files (the deletion list is kept). A refused save
   * issues nothing and shows the "exists" message, also for an empty name.
   */
  function Save(p: Panel, dirs: Dirs, name: string, users: seq<string>): (r: (seq<FileOp>, Panel))
    ensures r.0 == [] <==> name == "" || name in users
    ensures (name == "" || name in users) ==> r.1 == p.(info := USER_EXISTS)
    ensures name != "" && name !in users ==> r.0 == AcceptedOps(p, dirs, name) && CopiesKept(r.0, p)
    ensures name != "" && name !in users ==>
      Pending(r.1) == [] && r.1.todelete == p.todelete && r.1.images == p.images && r.1.audios == p.audios
  {
    if name != "" && name !in users then
      AcceptedCopies(p, dirs, name);
      (AcceptedOps(p, dirs, name), ClearPending(p))
    else
      ([], p.(info := USER_EXISTS))
  }

  /** On a consistent panel a save copies only files still shown in its lists. */
  lemma SaveCopiesShownFiles(p: Panel, dirs: Dirs, name: string, users: seq<string>)
    requires Consistent(p)
    ensures forall c :: c in Save(p, dirs, name, users).0 && c.Copy? ==> c.src in p.images || c.src in p.audios
  {
    var ops := Save(p, dirs, name, users).0;
    forall c | c in ops && c.Copy?
      ensures c.src in p.images || c.src in p.audios
    {
      assert CopiesKept(ops, p);
      assert c.src in Pending(p) && c.src !in p.todelete;
      assert c.src in p.takenImages || c.src in p.uploadedImages || c.src in p.takenAudios || c.src in p.uploadedAudios;
    }
  }

  /** A second save right after an accepted one copies nothing (the name now exists or is re-entered fresh). */
  lemma SaveTwiceCopiesOnce(p: Panel, dirs: Dirs, name: string, users: seq<string>, other: string)
    requires name != "" && name !in users
    ensures forall c :: c in Save(Save(p, dirs, name, users).1, dirs, other, users + [name]).0 ==> !c.Copy?
  {
    var q := Save(p, dirs, name, users).1;
    assert Pending(q) == [];
  }
}
