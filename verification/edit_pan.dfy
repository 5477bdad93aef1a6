/**
 * The "edit user" panel: it opens on the user's stored files and saves in
 * one of three ways: rename the user and add the kept pending files, add
 * them in place under the unchanged name, or refuse.
 */
module EditPan {
  import opened Common
  import opened Strings
  import opened Enrollment

  /** The panel as opened on `oldName`: one row per stored face and voice file, nothing pending. */
  function Open(dirs: Dirs, oldName: string, faceListing: seq<string>, voiceListing: seq<string>): (p: Panel)
    ensures |p.images| == |faceListing| && |p.audios| == |voiceListing|
    ensures forall i :: 0 <= i < |faceListing| ==> p.images[i] == FacesDir(dirs, oldName) + "/" + faceListing[i]
    ensures forall i :: 0 <= i < |voiceListing| ==> p.audios[i] == VoicesDir(dirs, oldName) + "/" + voiceListing[i]
    ensures Pending(p) == [] && p.todelete == []
    ensures Consistent(p)
  {
    var faces, voices := FacesDir(dirs, oldName), VoicesDir(dirs, oldName);
    NewPanel(seq(|faceListing|, i requires 0 <= i < |faceListing| => faces + "/" + faceListing[i]),
             seq(|voiceListing|, i requires 0 <= i < |voiceListing| => voices + "/" + voiceListing[i]))
  }

  /**
   * `generate_image_name` / `generate_audio_name` of this panel: a name
   * absent from the cache listing and from the user's own faces (or voices)
   * listing.
   */
  method GenerateName(cacheListing: seq<string>, ownListing: seq<string>, draws: seq<seq<nat>>) returns (name: Option<string>)
    requires forall k :: 0 <= k < |draws| ==> ValidDraw(draws[k])
    ensures name.Some? ==> |name.value| == NAME_LENGTH && forall j :: 0 <= j < |name.value| ==> IsAsciiLetter(name.value[j])
    ensures name.Some? ==> name.value !in cacheListing && name.value !in ownListing
    ensures name.None? <==> forall k :: 0 <= k < |draws| ==> Spell(draws[k]) in cacheListing || Spell(draws[k]) in ownListing
  {
    name := Enrollment.GenerateName(cacheListing + ownListing, draws);
  }

  /** The three ways a save goes. */
  datatype SaveKind = Rename | InPlace | Reject

  /** The save's branch, from the entered name, the name the panel opened on, and the dataset listing. */
  function Classify(name: string, oldName: string, users: seq<string>): (k: SaveKind)
    ensures k == Rename <==> name != "" && name != oldName && name !in users
    ensures k == InPlace <==> name != "" && name == oldName
    ensures k == Reject <==> name == "" || (name != oldName && name in users)
  {
    if name != "" && name != oldName && name !in users then Rename
    else if name != "" && name == oldName then InPlace
    else Reject
  }

  /** The commands of an accepted save: removals, the directory move when renaming, copies, cache clearing. */
  function AcceptedOps(p: Panel, dirs: Dirs, oldName: string, name: string, rename: bool): (ops: seq<FileOp>)
    ensures |ops| >= |p.todelete| + 2
    ensures forall i :: 0 <= i < |p.todelete| ==> ops[i] == Remove(p.todelete[i])
    ensures ops[|ops| - 2..] == ClearCaches(dirs)
    ensures rename ==> ops[|p.todelete|] == MoveDir(UserDir(dirs, oldName), UserDir(dirs, name))
  {
    Removals(p.todelete) + (if rename then [MoveDir(UserDir(dirs, oldName), UserDir(dirs, name))] else [])
      + Copies(p, dirs, name) + ClearCaches(dirs)
  }

  /** The parts an accepted save's commands are made of. */
  lemma AcceptedOpsParts(p: Panel, dirs: Dirs, oldName: string, name: string, rename: bool, op: FileOp)
    ensures op in AcceptedOps(p, dirs, oldName, name, rename) <==>
      || op in Removals(p.todelete)
      || (rename && op == MoveDir(UserDir(dirs, oldName), UserDir(dirs, name)))
      || op in Copies(p, dirs, name)
      || op in ClearCaches(dirs)
  {
    var move: seq<FileOp> := if rename then [MoveDir(UserDir(dirs, oldName), UserDir(dirs, name))] else [];
    assert AcceptedOps(p, dirs, oldName, name, rename) == Removals(p.todelete) + move + Copies(p, dirs, name) + ClearCaches(dirs);
  }

  /** An accepted save moves the directory exactly when renaming, and copies exactly `Copies`. */
  lemma AcceptedOpsContents(p: Panel, dirs: Dirs, oldName: string, name: string, rename: bool)
    ensures rename <==> MoveDir(UserDir(dirs, oldName), UserDir(dirs, name)) in AcceptedOps(p, dirs, oldName, name, rename)
    ensures forall c :: c in AcceptedOps(p, dirs, oldName, name, rename) && c.Copy? ==> c in Copies(p, dirs, name)
    ensures forall c :: c in Copies(p, dirs, name) ==> c in AcceptedOps(p, dirs, oldName, name, rename)
  {
    var ops := AcceptedOps(p, dirs, oldName, name, rename);
    AcceptedOpsParts(p, dirs, oldName, name, rename, MoveDir(UserDir(dirs, oldName), UserDir(dirs, name)));
    forall c | c in ops && c.Copy?
      ensures c in Copies(p, dirs, name)
    {
      AcceptedOpsParts(p, dirs, oldName, name, rename, c);
    }
    forall c | c in Copies(p, dirs, name)
      ensures c in ops
    {
      AcceptedOpsParts(p, dirs, oldName, name, rename, c);
    }
  }

  /**
   * `savechanges`. Rename: remove the deleted rows' files, move the user's
   * directory to the new name, copy the kept pending files into it, empty
   * the caches. In place: the same without the move. Reject: nothing is
   * issued and the "exists" message is shown. Both accepted branches forget
   * the pending files. The in-place branch gives uploaded audio fresh names
   * like every other upload; `InPlaceCopiesAsWritten` has the source's
   * destination.
   */
  function Save(p: Panel, dirs: Dirs, oldName: string, name: string, users: seq<string>): (r: (seq<FileOp>, Panel))
    ensures Classify(name, oldName, users) == Reject <==> r.0 == []
    ensures Classify(name, oldName, users) == Reject ==> r.1 == p.(info := USER_EXISTS)
    ensures Classify(name, oldName, users) != Reject ==>
      r.0 == AcceptedOps(p, dirs, oldName, name, Classify(name, oldName, users) == Rename)
    ensures Classify(name, oldName, users) != Reject ==>
      Pending(r.1) == [] && r.1.todelete == p.todelete && r.1.images == p.images && r.1.audios == p.audios
  {
    match Classify(name, oldName, users)
    case Rename => (AcceptedOps(p, dirs, oldName, name, true), ClearPending(p))
    case InPlace => (AcceptedOps(p, dirs, oldName, name, false), ClearPending(p))
    case Reject => ([], p.(info := USER_EXISTS))
  }

  /** The user's directory is moved exactly on the rename branch. */
  lemma SaveMovesOnlyOnRename(p: Panel, dirs: Dirs, oldName: string, name: string, users: seq<string>)
    ensures Classify(name, oldName, users) == Rename <==>
      MoveDir(UserDir(dirs, oldName), UserDir(dirs, name)) in Save(p, dirs, oldName, name, users).0
  {
    AcceptedOpsContents(p, dirs, oldName, name, Classify(name, oldName, users) == Rename);
  }

  /** Every copy of a save lands directly in the saved user's faces or voices directory. */
  lemma SaveCopiesLandInUserDirs(p: Panel, dirs: Dirs, oldName: string, name: string, users: seq<string>)
    ensures forall c :: c in Save(p, dirs, oldName, name, users).0 && c.Copy? ==>
      LandsIn(c.dest, FacesDir(dirs, name)) || LandsIn(c.dest, VoicesDir(dirs, name))
    ensures forall c :: (c in Save(p, dirs, oldName, name, users).0 && c.Copy? && c.src in p.takenImages + p.uploadedImages &&
      c.src !in p.takenAudios + p.uploadedAudios) ==> LandsIn(c.dest, FacesDir(dirs, name))
    ensures forall c :: (c in Save(p, dirs, oldName, name, users).0 && c.Copy? && c.src in p.takenAudios + p.uploadedAudios &&
      c.src !in p.takenImages + p.uploadedImages) ==> LandsIn(c.dest, VoicesDir(dirs, name))
    ensures forall c :: (c in Save(p, dirs, oldName, name, users).0 && c.Copy? && c.src in p.uploadedAudios &&
      c.src !in p.takenImages + p.uploadedImages + p.takenAudios) ==> c.dest == FreshFile(VoicesDir(dirs, name), Extension(c.src))
  {
    AcceptedOpsContents(p, dirs, oldName, name, Classify(name, oldName, users) == Rename);
  }

  /** In both accepted branches the copies are exactly the kept pending files. */
  lemma SaveCopiesKeptFiles(p: Panel, dirs: Dirs, oldName: string, name: string, users: seq<string>)
    requires Classify(name, oldName, users) != Reject
    ensures forall s :: (exists c :: c in Save(p, dirs, oldName, name, users).0 && c.Copy? && c.src == s) <==>
      s in Pending(p) && s !in p.todelete
  {
    var ops := Save(p, dirs, oldName, name, users).0;
    AcceptedOpsContents(p, dirs, oldName, name, Classify(name, oldName, users) == Rename);
    forall s | s in Pending(p) && s !in p.todelete
      ensures exists c :: c in ops && c.Copy? && c.src == s
    {
      var c :| c in Copies(p, dirs, name) && c.Copy? && c.src == s;
      assert c in ops;
    }
  }

  // ---------------------------------------------------------------------------
  // The in-place branch's uploaded-audio copies as the source issues them
  // ---------------------------------------------------------------------------

  /** The kept uploaded audio files copied to `voices/<source path>.<ext>`, the in-place branch's destination. */
  function CopyAtOwnPath(items: seq<string>, todelete: seq<string>, voices: string): (ops: seq<FileOp>)
    ensures forall c :: c in ops ==>
      c.Copy? && c.src in items && c.src !in todelete && c.dest == AtPath(voices + "/" + c.src + "." + Extension(c.src))
    ensures forall s :: s in items && s !in todelete ==> Copy(s, AtPath(voices + "/" + s + "." + Extension(s))) in ops
  {
    if |items| == 0 then []
    else
      var rest := CopyAtOwnPath(items[1..], todelete, voices);
      assert forall s :: s in items <==> s == items[0] || s in items[1..];
      var s := items[0];
      if s !in todelete then [Copy(s, AtPath(voices + "/" + s + "." + Extension(s)))] + rest else rest
  }

  /** The in-place branch's copies as written: uploaded audio goes to `voices/<source path>.<ext>`. */
  function InPlaceCopiesAsWritten(p: Panel, dirs: Dirs, name: string): (ops: seq<FileOp>)
    ensures forall c :: c in ops && c.Copy? && c.src in p.uploadedAudios && c.src !in p.takenImages + p.uploadedImages + p.takenAudios ==>
      c.dest == AtPath(VoicesDir(dirs, name) + "/" + c.src + "." + Extension(c.src))
  {
    var faces, voices := FacesDir(dirs, name), VoicesDir(dirs, name);
    CopyInto(p.takenImages, p.todelete, faces) + CopyFresh(p.uploadedImages, p.todelete, faces)
      + CopyInto(p.takenAudios, p.todelete, voices) + CopyAtOwnPath(p.uploadedAudios, p.todelete, voices)
  }

  /**
   * An uploaded audio file whose path has a directory part (every path the
   * file dialog returns) is not copied into the voices directory: its
   * destination nests the whole source path below it.
   */
  lemma AsWrittenUploadMissesVoicesDir(voices: string, aud: string)
    requires '/' in aud
    ensures !LandsIn(AtPath(voices + "/" + aud + "." + Extension(aud)), voices)
  {
    var dest := voices + "/" + aud + "." + Extension(aud);
    var tail := dest[|voices| + 1..];
    assert tail == aud + "." + Extension(aud);
    var k :| 0 <= k < |aud| && aud[k] == '/';
    assert tail[k] == '/';
  }

  /**
   * On a panel whose only pending file is the uploaded audio `aud`, the
   * in-place save as written copies it outside the voices directory.
   */
  lemma AsWrittenInPlaceMisplacesUpload(dirs: Dirs, name: string, aud: string)
    requires '/' in aud
    ensures var p := NewPanel([], [aud]).(uploadedAudios := [aud]);
            var voices := VoicesDir(dirs, name);
            && InPlaceCopiesAsWritten(p, dirs, name) == [Copy(aud, AtPath(voices + "/" + aud + "." + Extension(aud)))]
            && !LandsIn(AtPath(voices + "/" + aud + "." + Extension(aud)), voices)
  {
    var voices := VoicesDir(dirs, name);
    assert CopyAtOwnPath([aud], [], voices) == [Copy(aud, AtPath(voices + "/" + aud + "." + Extension(aud)))];
    AsWrittenUploadMissesVoicesDir(voices, aud);
  }

  /** The destination for `/tmp/a.wav` uploaded to user `bob` under dataset `data`. */
  lemma AsWrittenExampleDestination()
    ensures VoicesDir(Dirs("data", "c", "a"), "bob") + "/" + "/tmp/a.wav" + "." + Extension("/tmp/a.wav")
      == "data/bob/voices//tmp/a.wav.wav"
    ensures '/' in "/tmp/a.wav"
  {
    ExampleExtension();
    ExampleVoicesDir();
    ExampleJoin();
    assert "/tmp/a.wav"[0] == '/';
  }

  lemma ExampleJoin()
    ensures "data/bob/voices" + "/" + "/tmp/a.wav" + "." + "wav" == "data/bob/voices//tmp/a.wav.wav"
  {
  }

  lemma ExampleVoicesDir()
    ensures VoicesDir(Dirs("data", "c", "a"), "bob") == "data/bob/voices"
  {
  }

  lemma ExampleExtension()
    ensures Extension("/tmp/a.wav") == "wav"
  {
    assert "/tmp/a.wav" == "/tmp/a" + "." + "wav";
    ExtensionOfDotted("/tmp/a", "wav");
  }
}
