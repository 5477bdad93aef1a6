/**
 * The offline training script: it turns the enrollment dataset into the two
 * catalogs the decision module reads, a list of face encodings with the
 * matching person names, and a list of persons with their voice embeddings.
 * Image decoding, face detection and the speaker model are oracles: each
 * image comes with what reading it produced, and embedding extraction is a
 * function from a file path to an optional embedding.
 */
module TrainModele {
  import opened Common
  import opened Strings

  type Encoding = seq<real>
  type Embedding = seq<real>

  // ---------------------------------------------------------------------------
  // Face catalog
  // ---------------------------------------------------------------------------

  /** What processing one image yields. */
  datatype ImageRead =
    | Unreadable                          // the image loader returned nothing
    | NotEightBit                         // the converted image is not 8-bit
    | NoFace                              // detection found no face
    | Encoded(encodings: seq<Encoding>)   // one encoding per detected face
    | Failed(detail: string)              // detection or encoding raised

  datatype ImageFile = ImageFile(path: string, read: ImageRead)

  /** The person an image belongs to: the grandparent directory of its path. */
  function PersonOf(image: ImageFile): string
  {
    GrandparentName(image.path)
  }

  /** The catalog entries one image adds: each of its encodings paired with its person. */
  function Contribution(image: ImageFile): (r: seq<(Encoding, string)>)
    ensures !image.read.Encoded? ==> r == []
    ensures image.read.Encoded? ==> |r| == |image.read.encodings|
    ensures forall k :: 0 <= k < |r| ==> r[k] == (image.read.encodings[k], PersonOf(image))
  {
    if image.read.Encoded? then seq(|image.read.encodings|, k requires 0 <= k < |image.read.encodings| => (image.read.encodings[k], PersonOf(image)))
    else []
  }

  /** How many encodings the images produce in all. */
  function EncodingCount(images: seq<ImageFile>): nat
  {
    if |images| == 0 then 0
    else
      var last := images[|images| - 1];
      EncodingCount(images[..|images| - 1]) + (if last.read.Encoded? then |last.read.encodings| else 0)
  }

  /** The catalog the images produce, image by image, in the order given: one pair per encoding. */
  function Contributions(images: seq<ImageFile>): (r: seq<(Encoding, string)>)
    ensures |r| == EncodingCount(images)
  {
    if |images| == 0 then [] else Contributions(images[..|images| - 1]) + Contribution(images[|images| - 1])
  }

  /** Concatenating image lists concatenates their catalogs. */
  lemma {:induction false} ContributionsAppend(a: seq<ImageFile>, b: seq<ImageFile>)
    ensures Contributions(a + b) == Contributions(a) + Contributions(b)
    decreases |b|
  {
    if |b| == 0 {
      assert a + b == a;
    } else {
      var b', last := b[..|b| - 1], b[|b| - 1];
      assert (a + b)[..|a + b| - 1] == a + b';
      assert (a + b)[|a + b| - 1] == last;
      calc {
        Contributions(a + b);
        Contributions(a + b') + Contribution(last);
        { ContributionsAppend(a, b'); }
        (Contributions(a) + Contributions(b')) + Contribution(last);
        Contributions(a) + (Contributions(b') + Contribution(last));
        Contributions(a) + Contributions(b);
      }
    }
  }

  /** Every catalog entry names the person of an image that produced encodings. */
  lemma {:induction false} ContributionNames(images: seq<ImageFile>)
    ensures forall e :: e in Contributions(images) ==>
      exists im :: im in images && im.read.Encoded? && e.0 in im.read.encodings && e.1 == PersonOf(im)
    decreases |images|
  {
    if |images| > 0 {
      var init := images[..|images| - 1];
      var im := images[|images| - 1];
      ContributionNames(init);
      forall e | e in Contributions(images)
        ensures exists im :: im in images && im.read.Encoded? && e.0 in im.read.encodings && e.1 == PersonOf(im)
      {
        if e in Contributions(init) {
          var im' :| im' in init && im'.read.Encoded? && e.0 in im'.read.encodings && e.1 == PersonOf(im');
          assert im' in images;
        } else {
          var c := Contribution(im);
          assert e in c;
          var k :| 0 <= k < |c| && c[k] == e;
          assert im in images;
        }
      }
    }
  }

  /** An image that produced no encodings can be dropped without changing the catalog. */
  lemma UnencodedImageContributesNothing(before: seq<ImageFile>, image: ImageFile, after: seq<ImageFile>)
    requires !image.read.Encoded?
    ensures Contributions(before + [image] + after) == Contributions(before + after)
  {
    assert Contributions([image]) == [] by {
      assert [image][..0] == [];
    }
    calc {
      Contributions(before + [image] + after);
      { ContributionsAppend(before + [image], after); }
      Contributions(before + [image]) + Contributions(after);
      { ContributionsAppend(before, [image]); }
      Contributions(before) + Contributions(after);
      { ContributionsAppend(before, after); }
      Contributions(before + after);
    }
  }

  /** The catalog is empty exactly when no image produced an encoding. */
  lemma {:induction false} ContributionsEmpty(images: seq<ImageFile>)
    ensures |Contributions(images)| == 0 <==>
      forall im :: im in images && im.read.Encoded? ==> |im.read.encodings| == 0
    decreases |images|
  {
    if |images| > 0 {
      var init := images[..|images| - 1];
      ContributionsEmpty(init);
      assert forall im :: im in images <==> im in init || im == images[|images| - 1];
    }
  }

  /**
   * For images laid out as `root/<person>/<dir>/<file>` the catalog names the
   * person directory.
   */
  lemma DatasetImagePerson(root: string, person: string, dir: string, file: string, read: ImageRead)
    requires person != "" && person != "." && '/' !in person
    requires dir != "" && dir != "." && '/' !in dir
    requires file != "" && file != "." && '/' !in file
    ensures forall e :: e in Contribution(ImageFile(root + "/" + person + "/" + dir + "/" + file, read)) ==> e.1 == person
  {
    GrandparentOfDatasetFile(root, person, dir, file);
  }

  /** The two parallel lists hold, index by index, the entries of `catalog`. */
  ghost predicate Parallel(encodings: seq<Encoding>, names: seq<string>, catalog: seq<(Encoding, string)>)
  {
    |encodings| == |names| == |catalog| && forall j :: 0 <= j < |catalog| ==> (encodings[j], names[j]) == catalog[j]
  }

  lemma ParallelAppend(e1: seq<Encoding>, n1: seq<string>, c1: seq<(Encoding, string)>,
                       e2: seq<Encoding>, n2: seq<string>, c2: seq<(Encoding, string)>)
    requires Parallel(e1, n1, c1) && Parallel(e2, n2, c2)
    ensures Parallel(e1 + e2, n1 + n2, c1 + c2)
  {
    forall j | 0 <= j < |c1 + c2|
      ensures ((e1 + e2)[j], (n1 + n2)[j]) == (c1 + c2)[j]
    {
      if j >= |c1| {
        assert (c1 + c2)[j] == c2[j - |c1|];
      }
    }
  }

  /** The inner loop: one catalog entry per encoding of one image, all named `person`. */
  method AddEncodings(encodings: seq<Encoding>, person: string)
    returns (added: seq<Encoding>, names: seq<string>)
    ensures added == encodings
    ensures |names| == |encodings| && forall j :: 0 <= j < |names| ==> names[j] == person
  {
    added, names := [], [];
    var k := 0;
    while k < |encodings|
      invariant 0 <= k <= |encodings|
      invariant added == encodings[..k]
      invariant |names| == k && forall j :: 0 <= j < k ==> names[j] == person
    {
      added := added + [encodings[k]];
      names := names + [person];
      k := k + 1;
    }
    assert encodings[..k] == encodings;
  }

  /** The catalog of one more image is the catalog so far followed by that image's pairs. */
  lemma ContributionsStep(images: seq<ImageFile>, i: nat)
    requires i < |images|
    ensures Contributions(images[..i + 1]) == Contributions(images[..i]) + Contribution(images[i])
  {
    assert images[..i + 1] == images[..i] + [images[i]];
    ContributionsAppend(images[..i], [images[i]]);
    assert Contributions([images[i]]) == Contributions([]) + Contribution(images[i]);
  }

  /**
   * `train_face_recognition`: builds the parallel encoding and name lists
   * image by image and reports success exactly when the dataset exists and
   * at least one encoding was produced (only then is the catalog written).
   */
  method TrainFaceRecognition(datasetExists: bool, images: seq<ImageFile>)
    returns (ok: bool, knownEncodings: seq<Encoding>, knownNames: seq<string>)
    ensures |knownEncodings| == |knownNames|
    ensures datasetExists ==> |knownEncodings| == |Contributions(images)|
    ensures datasetExists ==> forall i :: 0 <= i < |knownEncodings| ==>
      (knownEncodings[i], knownNames[i]) == Contributions(images)[i]
    ensures !datasetExists ==> knownEncodings == [] && !ok
    ensures ok <==> datasetExists && exists im :: im in images && im.read.Encoded? && |im.read.encodings| > 0
  {
    knownEncodings, knownNames := [], [];
    if !datasetExists || |images| == 0 {
      ContributionsEmpty(images);
      ok := false;
      return;
    }
    var i := 0;
    while i < |images|
      invariant 0 <= i <= |images|
      invariant Parallel(knownEncodings, knownNames, Contributions(images[..i]))
    {
      var image := images[i];
      ContributionsStep(images, i);
      match image.read {
        case Encoded(encodings) =>
          var added, names := AddEncodings(encodings, PersonOf(image));
          ParallelAppend(knownEncodings, knownNames, Contributions(images[..i]), added, names, Contribution(image));
          knownEncodings, knownNames := knownEncodings + added, knownNames + names;
        case _ =>
          assert Contributions(images[..i + 1]) == Contributions(images[..i]);
      }
      i := i + 1;
    }
    assert images[..i] == images;
    ContributionsEmpty(images);
    ok := |knownEncodings| > 0;
  }

  // ---------------------------------------------------------------------------
  // Voice dataset
  // ---------------------------------------------------------------------------

  /** The glob patterns, in the order the files are gathered. */
  const VOICE_EXTENSIONS: seq<string> := [".wav", ".mp3", ".flac", ".m4a"]

  predicate IsTrainingVoice(file: string)
  {
    exists e :: e in VOICE_EXTENSIONS && EndsWith(file, e)
  }

  /** One entry of the dataset directory, with the listing of its `voices` subdirectory when that exists. */
  datatype PersonEntry = PersonEntry(name: string, isDir: bool, voices: Option<seq<string>>)

  /** The listing entries matching one extension, joined onto `dir`, in listing order. */
  function Glob(dir: string, listing: seq<string>, ext: string): (ps: seq<string>)
    ensures forall p :: p in ps <==> exists f :: f in listing && EndsWith(f, ext) && p == PathJoin(dir, f)
  {
    if |listing| == 0 then []
    else
      var rest := Glob(dir, listing[1..], ext);
      assert forall f :: f in listing <==> f == listing[0] || f in listing[1..];
      if EndsWith(listing[0], ext) then [PathJoin(dir, listing[0])] + rest else rest
  }

  /** All matches of the patterns in `exts`, pattern after pattern. */
  function GlobAll(dir: string, listing: seq<string>, exts: seq<string>): (ps: seq<string>)
    ensures forall p :: p in ps <==> exists f, e :: f in listing && e in exts && EndsWith(f, e) && p == PathJoin(dir, f)
  {
    if |exts| == 0 then []
    else
      var rest := GlobAll(dir, listing, exts[1..]);
      assert forall e :: e in exts <==> e == exts[0] || e in exts[1..];
      Glob(dir, listing, exts[0]) + rest
  }

  /** The voice files of one listing, as `get_voice_dataset` gathers them. */
  function VoiceFiles(dir: string, listing: seq<string>): (ps: seq<string>)
    ensures forall p :: p in ps <==> exists f :: f in listing && IsTrainingVoice(f) && p == PathJoin(dir, f)
  {
    GlobAll(dir, listing, VOICE_EXTENSIONS)
  }

  /** The entry is a directory with a `voices` subdirectory holding at least one voice file. */
  predicate HasTrainingVoice(p: PersonEntry)
  {
    p.isDir && p.voices.Some? && exists f :: f in p.voices.value && IsTrainingVoice(f)
  }

  /** The `voices` subdirectory of a person directory. */
  function VoicesDir(root: string, person: string): string
  {
    PathJoin(PathJoin(root, person), "voices")
  }

  /** `p` is the pair gathered for entry `e`: its name and all of its voice files. */
  predicate GatheredFrom(root: string, e: PersonEntry, p: (string, seq<string>))
  {
    HasTrainingVoice(e) && p == (e.name, VoiceFiles(VoicesDir(root, e.name), e.voices.value))
  }

  /**
   * `get_voice_dataset`: one `(person, files)` pair per directory whose
   * `voices` subdirectory holds a file of an accepted type, the files being
   * every such file of that directory; a missing dataset gives no pairs.
   */
  function GetVoiceDataset(root: string, datasetExists: bool, entries: seq<PersonEntry>): (r: seq<(string, seq<string>)>)
    ensures !datasetExists ==> r == []
    ensures forall p :: p in r ==> |p.1| > 0
    ensures forall p :: p in r ==> exists e :: e in entries && GatheredFrom(root, e, p)
    ensures datasetExists ==> forall e :: e in entries && HasTrainingVoice(e) ==> exists p :: p in r && p.0 == e.name
  {
    if !datasetExists then [] else VoiceDatasetFrom(root, entries)
  }

  function VoiceDatasetFrom(root: string, entries: seq<PersonEntry>): (r: seq<(string, seq<string>)>)
    ensures forall p :: p in r ==> |p.1| > 0
    ensures forall p :: p in r ==> exists e :: e in entries && GatheredFrom(root, e, p)
    ensures forall e :: e in entries && HasTrainingVoice(e) ==> exists p :: p in r && p.0 == e.name
  {
    if |entries| == 0 then []
    else
      var e := entries[0];
      var rest := VoiceDatasetFrom(root, entries[1..]);
      assert forall x :: x in entries <==> x == e || x in entries[1..];
      if e.isDir && e.voices.Some? then
        var files := VoiceFiles(VoicesDir(root, e.name), e.voices.value);
        if |files| > 0 then
          assert files[0] in files;
          assert GatheredFrom(root, e, (e.name, files));
          assert (e.name, files) in [(e.name, files)] + rest;
          [(e.name, files)] + rest
        else
          assert forall f :: f in e.voices.value && IsTrainingVoice(f) ==> PathJoin(VoicesDir(root, e.name), f) in files;
          rest
      else rest
  }

  // ---------------------------------------------------------------------------
  // Voice catalog
  // ---------------------------------------------------------------------------

  /** The embeddings extraction yields for `files`, failures dropped, in order. */
  function Extracted(files: seq<string>, extract: string -> Option<Embedding>): (es: seq<Embedding>)
    ensures |es| <= |files|
    ensures forall e :: e in es ==> exists f :: f in files && extract(f) == Some(e)
  {
    if |files| == 0 then []
    else
      var rest := Extracted(files[1..], extract);
      match extract(files[0])
      case Some(e) => [e] + rest
      case None => rest
  }

  /** How many of `files` extraction succeeds on. */
  function SuccessCount(files: seq<string>, extract: string -> Option<Embedding>): nat
  {
    if |files| == 0 then 0
    else (if extract(files[0]).Some? then 1 else 0) + SuccessCount(files[1..], extract)
  }

  /** The embeddings kept are exactly one per successful extraction. */
  lemma {:induction false} ExtractedCountsSuccesses(files: seq<string>, extract: string -> Option<Embedding>)
    ensures |Extracted(files, extract)| == SuccessCount(files, extract)
    decreases |files|
  {
    if |files| > 0 {
      ExtractedCountsSuccesses(files[1..], extract);
    }
  }

  /** The embeddings recorded per person: persons left without any are omitted. */
  function PersonEmbeddings(dataset: seq<(string, seq<string>)>, extract: string -> Option<Embedding>)
    : (r: seq<(string, seq<Embedding>)>)
    ensures forall p :: p in r ==> |p.1| > 0
    ensures forall p :: p in r ==> exists d :: d in dataset && p == (d.0, Extracted(d.1, extract))
    ensures forall d :: d in dataset && |Extracted(d.1, extract)| > 0 ==> (d.0, Extracted(d.1, extract)) in r
  {
    if |dataset| == 0 then []
    else
      var d := dataset[0];
      var rest := PersonEmbeddings(dataset[1..], extract);
      assert forall x :: x in dataset <==> x == d || x in dataset[1..];
      var es := Extracted(d.1, extract);
      if |es| > 0 then [(d.0, es)] + rest else rest
  }

  /** The number of embeddings in a voice catalog. */
  function TotalEmbeddings(catalog: seq<(string, seq<Embedding>)>): nat
  {
    if |catalog| == 0 then 0 else |catalog[0].1| + TotalEmbeddings(catalog[1..])
  }

  /** The number of successful extractions over the whole dataset. */
  function DatasetSuccesses(dataset: seq<(string, seq<string>)>, extract: string -> Option<Embedding>): nat
  {
    if |dataset| == 0 then 0 else SuccessCount(dataset[0].1, extract) + DatasetSuccesses(dataset[1..], extract)
  }

  /** Dropping persons without embeddings loses none: the total counts every successful extraction. */
  lemma {:induction false} TotalCountsSuccesses(dataset: seq<(string, seq<string>)>, extract: string -> Option<Embedding>)
    ensures TotalEmbeddings(PersonEmbeddings(dataset, extract)) == DatasetSuccesses(dataset, extract)
    decreases |dataset|
  {
    if |dataset| > 0 {
      TotalCountsSuccesses(dataset[1..], extract);
      ExtractedCountsSuccesses(dataset[0].1, extract);
    }
  }

  datatype VoiceTraining = VoiceTraining(saved: bool, catalog: seq<(string, seq<Embedding>)>, total: nat)

  /**
   * `train_voice_recognition`: without a speaker model, without voice data or
   * without any successful extraction nothing is saved; otherwise the
   * catalog holds every person with at least one embedding, and the reported
   * total is the number of embeddings in it.
   */
  function TrainVoiceRecognition(modelLoaded: bool, dataset: seq<(string, seq<string>)>, extract: string -> Option<Embedding>)
    : (r: VoiceTraining)
    ensures r.saved <==> modelLoaded && DatasetSuccesses(dataset, extract) > 0
    ensures r.saved ==> r.total == DatasetSuccesses(dataset, extract)
    ensures r.saved ==> r.catalog == PersonEmbeddings(dataset, extract)
    ensures r.saved ==> forall p :: p in r.catalog ==> |p.1| > 0 && exists d :: d in dataset && p.0 == d.0
    ensures r.saved ==> forall d :: d in dataset && SuccessCount(d.1, extract) > 0 ==> exists p :: p in r.catalog && p.0 == d.0
    ensures !r.saved ==> r.catalog == [] && r.total == 0
  {
    if !modelLoaded || |dataset| == 0 then VoiceTraining(false, [], 0)
    else
      var catalog := PersonEmbeddings(dataset, extract);
      TotalCountsSuccesses(dataset, extract);
      forall d | d in dataset
        ensures |Extracted(d.1, extract)| == SuccessCount(d.1, extract)
      {
        ExtractedCountsSuccesses(d.1, extract);
      }
      if |catalog| == 0 then VoiceTraining(false, [], 0)
      else
        assert TotalEmbeddings(catalog) > 0 by { assert |catalog[0].1| > 0; }
        VoiceTraining(true, catalog, TotalEmbeddings(catalog))
  }
}
