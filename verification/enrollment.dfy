/**
 * The bookkeeping the two enrollment panels (add a user, edit a user) share:
 * the rows shown in the image and audio lists, the pending captures and
 * uploads, the rows marked for deletion, the upload filters, the random
 * file-name generator, and the file operations a save issues. Dialogs,
 * camera, microphone and the shell are oracles or are recorded as
 * operations instead of performed.
 */
module Enrollment {
  import opened Common
  import opened Strings

  /** The suffixes of the dataset layout: `<dataset>/<user>/faces` and `<dataset>/<user>/voices`. */
  const FACES := "/faces"
  const VOICES := "/voices"

  /** The text shown when a save is refused. */
  const USER_EXISTS := "user already exist!!"

  /** The directories a panel works with. */
  datatype Dirs = Dirs(dataset: string, cacheCamera: string, cacheAudio: string)

  function UserDir(dirs: Dirs, user: string): string { dirs.dataset + "/" + user }
  function FacesDir(dirs: Dirs, user: string): string { dirs.dataset + "/" + user + FACES }
  function VoicesDir(dirs: Dirs, user: string): string { dirs.dataset + "/" + user + VOICES }

  /**
   * A panel's state: the rows of its two list widgets, the pending taken and
   * uploaded files, the texts of the rows deleted so far, and the info label.
   */
  datatype Panel = Panel(
    images: seq<string>,
    audios: seq<string>,
    takenImages: seq<string>,
    uploadedImages: seq<string>,
    takenAudios: seq<string>,
    uploadedAudios: seq<string>,
    todelete: seq<string>,
    info: string)

  /** The initial state: the given rows, nothing pending. */
  function NewPanel(images: seq<string>, audios: seq<string>): (p: Panel)
    ensures p.images == images && p.audios == audios
    ensures Pending(p) == [] && p.todelete == []
  {
    Panel(images, audios, [], [], [], [], [], "")
  }

  /** Every pending file, in the order a save copies them. */
  function Pending(p: Panel): seq<string>
  {
    p.takenImages + p.uploadedImages + p.takenAudios + p.uploadedAudios
  }

  // ---------------------------------------------------------------------------
  // Upload filters
  // ---------------------------------------------------------------------------

  /** The image dialog's filter: a non-empty path mentioning a png, jpeg or jpg suffix anywhere. */
  predicate IsImageUpload(path: string)
  {
    path != "" && (Contains(path, ".png") || Contains(path, ".jpeg") || Contains(path, ".jpg"))
  }

  /** The audio dialog's filter: a non-empty path mentioning ".wav" anywhere. */
  predicate IsAudioUpload(path: string)
  {
    path != "" && Contains(path, ".wav")
  }

  /** Every path that passes a filter holds a '.', so its extension is the text after its last '.'. */
  lemma {:induction false} UploadsHaveDot(path: string)
    requires IsImageUpload(path) || IsAudioUpload(path)
    ensures '.' in path
  {
    if Contains(path, ".png") { ContainsDot(path, ".png"); }
    else if Contains(path, ".jpeg") { ContainsDot(path, ".jpeg"); }
    else if Contains(path, ".jpg") { ContainsDot(path, ".jpg"); }
    else { ContainsDot(path, ".wav"); }
  }

  lemma {:induction false} ContainsDot(s: string, sub: string)
    requires |sub| > 0 && sub[0] == '.'
    requires Contains(s, sub)
    ensures '.' in s
    decreases |s|
  {
    if sub <= s {
      assert s[0] == '.';
    } else {
      ContainsDot(s[1..], sub);
      assert forall c :: c in s[1..] ==> c in s;
    }
  }

  // ---------------------------------------------------------------------------
  // Panel operations
  // ---------------------------------------------------------------------------

  /** `chooseImage`: the dialog's answer (`""` when cancelled) is added when it passes the filter. */
  function ChooseImage(p: Panel, picked: string): (q: Panel)
    ensures IsImageUpload(picked) ==>
      q == p.(images := p.images + [picked], uploadedImages := p.uploadedImages + [picked])
    ensures !IsImageUpload(picked) ==> q == p
  {
    if IsImageUpload(picked) then p.(images := p.images + [picked], uploadedImages := p.uploadedImages + [picked])
    else p
  }

  /** `choseAudio`: the dialog's answer is added when it passes the audio filter. */
  function ChooseAudio(p: Panel, picked: string): (q: Panel)
    ensures IsAudioUpload(picked) ==>
      q == p.(audios := p.audios + [picked], uploadedAudios := p.uploadedAudios + [picked])
    ensures !IsAudioUpload(picked) ==> q == p
  {
    if IsAudioUpload(picked) then p.(audios := p.audios + [picked], uploadedAudios := p.uploadedAudios + [picked])
    else p
  }

  /** `takeImage`: the capture is written to the camera cache under a generated name and listed. */
  function TakeImage(p: Panel, dirs: Dirs, generated: string): (q: Panel)
    ensures q.images == p.images + [dirs.cacheCamera + "/" + generated + ".jpg"]
    ensures q.takenImages == p.takenImages + [dirs.cacheCamera + "/" + generated + ".jpg"]
    ensures q.(images := p.images, takenImages := p.takenImages) == p
  {
    var path := dirs.cacheCamera + "/" + generated + ".jpg";
    p.(images := p.images + [path], takenImages := p.takenImages + [path])
  }

  /** `takeAudio`: the recording is written to the audio cache under a generated name and listed. */
  function TakeAudio(p: Panel, dirs: Dirs, generated: string): (q: Panel)
    ensures q.audios == p.audios + [dirs.cacheAudio + "/" + generated + ".wav"]
    ensures q.takenAudios == p.takenAudios + [dirs.cacheAudio + "/" + generated + ".wav"]
    ensures q.(audios := p.audios, takenAudios := p.takenAudios) == p
  {
    var path := dirs.cacheAudio + "/" + generated + ".wav";
    p.(audios := p.audios + [path], takenAudios := p.takenAudios + [path])
  }

  /** `rows` without the row at `row`. */
  function RemoveRow(rows: seq<string>, row: nat): (r: seq<string>)
    requires row < |rows|
    ensures |r| == |rows| - 1
    ensures forall s :: s in rows && s != rows[row] ==> s in r
    ensures forall s :: s in r ==> s in rows
    ensures forall i :: 0 <= i < |r| ==> r[i] == if i < row then rows[i] else rows[i + 1]
  {
    rows[..row] + rows[row + 1..]
  }

  /**
   * `delete_image`: with no current row (`-1`) nothing happens; otherwise the
   * row's text is marked for deletion and the row removed. `row` is the list
   * widget's current row, which is -1 or a valid row.
   */
  function DeleteImage(p: Panel, row: int): (q: Panel)
    requires row < |p.images|
    ensures row < 0 ==> q == p
    ensures row >= 0 ==> q.todelete == p.todelete + [p.images[row]] && |q.images| == |p.images| - 1
    ensures row >= 0 ==> q.images == RemoveRow(p.images, row)
    ensures row >= 0 ==> q == p.(images := q.images, todelete := q.todelete)
  {
    if row >= 0 then p.(todelete := p.todelete + [p.images[row]], images := RemoveRow(p.images, row))
    else p
  }

  /** `delete_audio`: as `DeleteImage`, on the audio list. */
  function DeleteAudio(p: Panel, row: int): (q: Panel)
    requires row < |p.audios|
    ensures row < 0 ==> q == p
    ensures row >= 0 ==> q.todelete == p.todelete + [p.audios[row]] && |q.audios| == |p.audios| - 1
    ensures row >= 0 ==> q.audios == RemoveRow(p.audios, row)
    ensures row >= 0 ==> q == p.(audios := q.audios, todelete := q.todelete)
  {
    if row >= 0 then p.(todelete := p.todelete + [p.audios[row]], audios := RemoveRow(p.audios, row))
    else p
  }

  /**
   * The panel's consistency: a pending file that was not deleted is still
   * shown in its list, and every upload passed its filter.
   */
  ghost predicate Consistent(p: Panel)
  {
    && (forall s :: s in p.takenImages && s !in p.todelete ==> s in p.images)
    && (forall s :: s in p.uploadedImages && s !in p.todelete ==> s in p.images)
    && (forall s :: s in p.takenAudios && s !in p.todelete ==> s in p.audios)
    && (forall s :: s in p.uploadedAudios && s !in p.todelete ==> s in p.audios)
    && (forall s :: s in p.uploadedImages ==> IsImageUpload(s))
    && (forall s :: s in p.uploadedAudios ==> IsAudioUpload(s))
  }

  /** Every panel operation keeps the panel consistent. */
  lemma OperationsPreserveConsistent(p: Panel, dirs: Dirs, picked: string, generated: string, row: int)
    requires Consistent(p)
    ensures NewPanel(p.images, p.audios).todelete == [] && Consistent(NewPanel(p.images, p.audios))
    ensures Consistent(ChooseImage(p, picked)) && Consistent(ChooseAudio(p, picked))
    ensures Consistent(TakeImage(p, dirs, generated)) && Consistent(TakeAudio(p, dirs, generated))
    ensures row < |p.images| ==> Consistent(DeleteImage(p, row))
    ensures row < |p.audios| ==> Consistent(DeleteAudio(p, row))
    ensures Consistent(ClearPending(p))
  {
  }

  // ---------------------------------------------------------------------------
  // File operations
  // ---------------------------------------------------------------------------

  /**
   * Where a copy goes: into a directory under the source's own base name, to
   * a fresh generated name in a directory keeping the given extension, or to
   * a literal path.
   */
  datatype Destination = IntoDir(dir: string) | FreshFile(dir: string, ext: string) | AtPath(path: string)

  /** The shell commands a save or undo issues, in order. */
  datatype FileOp =
    | Remove(path: string)
    | MakeDir(path: string)
    | MoveDir(from: string, to: string)
    | Copy(src: string, dest: Destination)
    | ClearDir(dir: string)

  /** The copy lands directly inside `dir`. */
  predicate LandsIn(d: Destination, dir: string)
  {
    match d
    case IntoDir(x) => x == dir
    case FreshFile(x, _) => x == dir
    case AtPath(p) => |p| > |dir| + 1 && p[..|dir| + 1] == dir + "/" && '/' !in p[|dir| + 1..]
  }

  /** One `rm` per deleted row, in deletion order. */
  function Removals(todelete: seq<string>): (ops: seq<FileOp>)
    ensures |ops| == |todelete|
    ensures forall i :: 0 <= i < |ops| ==> ops[i] == Remove(todelete[i])
  {
    seq(|todelete|, i requires 0 <= i < |todelete| => Remove(todelete[i]))
  }

  /** The taken files not deleted, copied into `dir` under their own names. */
  function CopyInto(items: seq<string>, todelete: seq<string>, dir: string): (ops: seq<FileOp>)
    ensures |ops| <= |items|
    ensures forall c :: c in ops ==> c.Copy? && c.src in items && c.src !in todelete && c.dest == IntoDir(dir)
    ensures forall s :: s in items && s !in todelete ==> Copy(s, IntoDir(dir)) in ops
  {
    if |items| == 0 then []
    else
      var rest := CopyInto(items[1..], todelete, dir);
      assert forall s :: s in items <==> s == items[0] || s in items[1..];
      if items[0] !in todelete then [Copy(items[0], IntoDir(dir))] + rest else rest
  }

  /** The uploaded files not deleted, copied into `dir` under fresh names keeping their extensions. */
  function CopyFresh(items: seq<string>, todelete: seq<string>, dir: string): (ops: seq<FileOp>)
    ensures |ops| <= |items|
    ensures forall c :: c in ops ==> c.Copy? && c.src in items && c.src !in todelete && c.dest == FreshFile(dir, Extension(c.src))
    ensures forall s :: s in items && s !in todelete ==> Copy(s, FreshFile(dir, Extension(s))) in ops
  {
    if |items| == 0 then []
    else
      var rest := CopyFresh(items[1..], todelete, dir);
      assert forall s :: s in items <==> s == items[0] || s in items[1..];
      if items[0] !in todelete then [Copy(items[0], FreshFile(dir, Extension(items[0])))] + rest else rest
  }

  /**
   * The copies of a save into `user`'s directories: taken images, uploaded
   * images, taken audios, uploaded audios, each skipping deleted rows.
   */
  function Copies(p: Panel, dirs: Dirs, user: string): (ops: seq<FileOp>)
    ensures forall c :: c in ops ==> c.Copy? && c.src in Pending(p) && c.src !in p.todelete
    ensures forall s :: s in Pending(p) && s !in p.todelete ==> exists c :: c in ops && c.Copy? && c.src == s
    ensures forall c :: c in ops && c.src in p.uploadedImages + p.uploadedAudios && c.src !in p.takenImages + p.takenAudios ==>
      c.dest.FreshFile? && c.dest.ext == Extension(c.src)
    ensures forall c :: c in ops ==> LandsIn(c.dest, FacesDir(dirs, user)) || LandsIn(c.dest, VoicesDir(dirs, user))
    ensures forall c :: c in ops && c.src in p.takenImages + p.uploadedImages && c.src !in p.takenAudios + p.uploadedAudios ==>
      LandsIn(c.dest, FacesDir(dirs, user))
    ensures forall c :: c in ops && c.src in p.takenAudios + p.uploadedAudios && c.src !in p.takenImages + p.uploadedImages ==>
      LandsIn(c.dest, VoicesDir(dirs, user))
    ensures forall c :: c in ops && c.src in p.uploadedAudios && c.src !in p.takenImages + p.uploadedImages + p.takenAudios ==>
      c.dest == FreshFile(VoicesDir(dirs, user), Extension(c.src))
  {
    var faces, voices := FacesDir(dirs, user), VoicesDir(dirs, user);
    var a := CopyInto(p.takenImages, p.todelete, faces);
    var b := CopyFresh(p.uploadedImages, p.todelete, faces);
    var c := CopyInto(p.takenAudios, p.todelete, voices);
    var d := CopyFresh(p.uploadedAudios, p.todelete, voices);
    assert forall s :: s in Pending(p) <==> s in p.takenImages || s in p.uploadedImages || s in p.takenAudios || s in p.uploadedAudios;
    forall s | s in Pending(p) && s !in p.todelete
      ensures exists op :: op in a + b + c + d && op.Copy? && op.src == s
    {
      if s in p.takenImages { assert Copy(s, IntoDir(faces)) in a + b + c + d; }
      else if s in p.uploadedImages { assert Copy(s, FreshFile(faces, Extension(s))) in a + b + c + d; }
      else if s in p.takenAudios { assert Copy(s, IntoDir(voices)) in a + b + c + d; }
      else { assert Copy(s, FreshFile(voices, Extension(s))) in a + b + c + d; }
    }
    a + b + c + d
  }

  /** An uploaded file named `stem.ext` keeps `ext` when copied. */
  lemma UploadKeepsExtension(p: Panel, dirs: Dirs, user: string, stem: string, ext: string)
    requires '.' !in ext
    requires stem + "." + ext in p.uploadedImages && stem + "." + ext !in p.takenImages + p.takenAudios + p.todelete
    ensures exists c :: c in Copies(p, dirs, user) && c.src == stem + "." + ext && c.dest == FreshFile(FacesDir(dirs, user), ext)
  {
    var s := stem + "." + ext;
    ExtensionOfDotted(stem, ext);
    var ops := Copies(p, dirs, user);
    assert s in Pending(p);
    var c :| c in ops && c.Copy? && c.src == s;
    assert c.dest.FreshFile? && c.dest.ext == ext;
    assert c in CopyInto(p.takenImages, p.todelete, FacesDir(dirs, user)) + CopyFresh(p.uploadedImages, p.todelete, FacesDir(dirs, user))
      + CopyInto(p.takenAudios, p.todelete, VoicesDir(dirs, user)) + CopyFresh(p.uploadedAudios, p.todelete, VoicesDir(dirs, user));
  }

  /** A consistent panel copies only files still shown in its lists. */
  lemma CopiedFilesAreShown(p: Panel, dirs: Dirs, user: string)
    requires Consistent(p)
    ensures forall c :: c in Copies(p, dirs, user) ==> c.src in p.images || c.src in p.audios
  {
    assert forall s :: s in Pending(p) ==> s in p.takenImages || s in p.uploadedImages || s in p.takenAudios || s in p.uploadedAudios;
  }

  /** Emptying both caches, as every save and undo ends. */
  function ClearCaches(dirs: Dirs): seq<FileOp>
  {
    [ClearDir(dirs.cacheCamera), ClearDir(dirs.cacheAudio)]
  }

  /** The pending lists after a save: emptied, deletions kept. */
  function ClearPending(p: Panel): (q: Panel)
    ensures Pending(q) == [] && q.todelete == p.todelete
    ensures q.images == p.images && q.audios == p.audios && q.info == p.info
  {
    p.(takenImages := [], uploadedImages := [], takenAudios := [], uploadedAudios := [])
  }

  /** `undochanges`: empty both caches and forget every pending file and deletion. */
  function Undo(p: Panel, dirs: Dirs): (r: (seq<FileOp>, Panel))
    ensures r.0 == [ClearDir(dirs.cacheCamera), ClearDir(dirs.cacheAudio)]
    ensures Pending(r.1) == [] && r.1.todelete == []
    ensures r.1.images == p.images && r.1.audios == p.audios
  {
    (ClearCaches(dirs), ClearPending(p).(todelete := []))
  }

  /** After an undo a save copies nothing. */
  lemma UndoLeavesNothingToCopy(p: Panel, dirs: Dirs, user: string)
    ensures Copies(Undo(p, dirs).1, dirs, user) == []
  {
  }

  // ---------------------------------------------------------------------------
  // Generated file names
  // ---------------------------------------------------------------------------

  /** The characters a generated name draws from: 'A'..'Z' then 'a'..'z'. */
  const ALPHABET: seq<char> := Letters(52)

  /** The `i`-th letter of the alphabet. */
  function LetterAt(i: nat): char
    requires i < 52
  {
    if i < 26 then (65 + i) as char else (71 + i) as char
  }

  function Letters(n: nat): (r: seq<char>)
    requires n <= 52
    ensures |r| == n && forall i :: 0 <= i < n ==> r[i] == LetterAt(i)
  {
    if n == 0 then [] else Letters(n - 1) + [LetterAt(n - 1)]
  }

  const NAME_LENGTH := 10

  lemma AlphabetIsAsciiLetters()
    ensures |ALPHABET| == 52
    ensures forall c :: c in ALPHABET <==> IsAsciiLetter(c)
  {
    forall c | IsAsciiLetter(c)
      ensures c in ALPHABET
    {
      if c <= 'Z' { assert ALPHABET[c as int - 65] == c; }
      else { assert ALPHABET[c as int - 71] == c; }
    }
  }

  /** One attempt of the generator: ten indices into the alphabet, the values `random.choice` picked. */
  predicate ValidDraw(d: seq<nat>)
  {
    |d| == NAME_LENGTH && forall j :: 0 <= j < |d| ==> d[j] < |ALPHABET|
  }

  /** The name an attempt spells. */
  function Spell(d: seq<nat>): (s: string)
    requires ValidDraw(d)
    ensures |s| == NAME_LENGTH
    ensures forall j :: 0 <= j < |s| ==> IsAsciiLetter(s[j])
  {
    AlphabetIsAsciiLetters();
    seq(|d|, j requires 0 <= j < |d| => ALPHABET[d[j]])
  }

  /**
   * `generate_image_name` / `generate_audio_name`: draw ten letters, and draw
   * again while the name is one of `taken`. `draws` are the successive
   * attempts; when every supplied attempt is taken there is no result (the
   * source would keep drawing).
   */
  method GenerateName(taken: seq<string>, draws: seq<seq<nat>>) returns (name: Option<string>)
    requires forall k :: 0 <= k < |draws| ==> ValidDraw(draws[k])
    ensures name.Some? ==> |name.value| == NAME_LENGTH
    ensures name.Some? ==> forall j :: 0 <= j < |name.value| ==> IsAsciiLetter(name.value[j])
    ensures name.Some? ==> name.value !in taken
    ensures name.Some? ==> exists k :: 0 <= k < |draws| && name.value == Spell(draws[k])
                                      && forall k' :: 0 <= k' < k ==> Spell(draws[k']) in taken
    ensures name.None? <==> forall k :: 0 <= k < |draws| ==> Spell(draws[k]) in taken
  {
    var k := 0;
    while k < |draws| && Spell(draws[k]) in taken
      invariant 0 <= k <= |draws|
      invariant forall k' :: 0 <= k' < k ==> Spell(draws[k']) in taken
    {
      k := k + 1;
    }
    if k == |draws| {
      return None;
    }
    name := Some(Spell(draws[k]));
  }
}
