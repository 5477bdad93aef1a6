/**
 * The access-decision core: aggregating per-face catalog matches seen over a
 * short video window into a set of names, picking the enrolled speaker whose
 * stored voice embedding is most similar to a fresh recording, and fusing the
 * two.  The camera, microphone and recognition models are oracles: a face is
 * the vector of match flags the face matcher reports against every catalog
 * encoding, and a stored voice embedding is the similarity score the speaker
 * model reports for it.
 */
module Decision {
  import opened Common
  import opened Strings

  type Name = string

  /** The sentinel for "nobody" (decision.py keeps it as a plain string). */
  const UNKNOWN: Name := "Unknown"
  /** The user name reported when voice and faces disagree. */
  const MISMATCH: Name := "Mismatch"
  /** A similarity must be strictly above this to identify a speaker. */
  const VOICE_SIMILARITY_THRESHOLD: real := 0.10

  // ---------------------------------------------------------------------------
  // Face vote
  // ---------------------------------------------------------------------------

  /** One flag per catalog encoding: does this face match it? */
  type MatchVector = seq<bool>

  /** The catalog names at the matching indices, in index order: one ballot per matching encoding. */
  function Ballots(names: seq<Name>, matches: MatchVector): (b: seq<Name>)
    requires |matches| <= |names|
    ensures |b| <= |matches|
    ensures |b| == 0 <==> true !in matches
    ensures forall x :: x in b <==> exists i :: 0 <= i < |matches| && matches[i] && names[i] == x
    decreases |matches|
  {
    if |matches| == 0 then []
    else
      var rest := Ballots(names[1..], matches[1..]);
      assert forall i :: 1 <= i < |matches| ==> matches[i] == matches[1..][i - 1] && names[i] == names[1..][i - 1];
      assert true in matches <==> matches[0] || true in matches[1..];
      (if matches[0] then [names[0]] else []) + rest
  }

  /** How many ballots name `c` (the count `name_counts` keeps for it). */
  function Votes(b: seq<Name>, c: Name): nat
  {
    multiset(b)[c]
  }

  /** The position where `c` first appears among the ballots. */
  function First(b: seq<Name>, c: Name): (k: nat)
    requires c in b
    ensures k < |b| && b[k] == c
    ensures forall j :: 0 <= j < k ==> b[j] != c
  {
    if b[0] == c then 0 else 1 + First(b[1..], c)
  }

  /**
   * The vote the face matcher asks for: `w` has a ballot, no name has more
   * ballots, and every name that first appears before `w` has strictly fewer.
   */
  ghost predicate IsVoteWinner(b: seq<Name>, w: Name)
  {
    && w in b
    && (forall i :: 0 <= i < |b| ==> Votes(b, b[i]) <= Votes(b, w))
    && (forall i :: 0 <= i < First(b, w) ==> Votes(b, b[i]) < Votes(b, w))
  }

  /** At most one name wins a vote. */
  lemma VoteWinnerUnique(b: seq<Name>, w1: Name, w2: Name)
    requires IsVoteWinner(b, w1) && IsVoteWinner(b, w2)
    ensures w1 == w2
  {
    var f1, f2 := First(b, w1), First(b, w2);
    assert Votes(b, b[f1]) <= Votes(b, w2) && Votes(b, b[f2]) <= Votes(b, w1);
  }

  lemma FirstInPrefix(b: seq<Name>, i: nat, x: Name)
    requires i <= |b| && x in b[..i]
    ensures x in b && First(b, x) < i
  {
    var j :| 0 <= j < i && b[..i][j] == x;
    assert b[j] == x;
  }

  /** The dictionary keys after `i` ballots: every name seen so far, in first-appearance order. */
  ghost predicate KeysInv(b: seq<Name>, i: nat, keys: seq<Name>)
    requires i <= |b|
  {
    && (forall x :: x in keys <==> x in b[..i])
    && (forall x :: x in keys ==> x in b)
    && (forall j, k :: 0 <= j < k < |keys| ==> First(b, keys[j]) < First(b, keys[k]))
  }

  /** The keys of `name_counts` as the loop over the matching indices builds them. */
  function TallyFrom(b: seq<Name>, i: nat, keys: seq<Name>): (r: seq<Name>)
    requires i <= |b|
    requires KeysInv(b, i, keys)
    ensures KeysInv(b, |b|, r)
    decreases |b| - i
  {
    if i == |b| then keys
    else if b[i] in keys then
      assert b[..i + 1] == b[..i] + [b[i]];
      TallyFrom(b, i + 1, keys)
    else
      assert b[..i + 1] == b[..i] + [b[i]];
      assert forall j :: 0 <= j < i ==> b[..i][j] == b[j];
      assert First(b, b[i]) == i;
      forall j | 0 <= j < |keys|
        ensures First(b, keys[j]) < i
      {
        FirstInPrefix(b, i, keys[j]);
      }
      TallyFrom(b, i + 1, keys + [b[i]])
  }

  /** Python's `max(name_counts, key=name_counts.get)`: the first key holding the top count. */
  function LeaderFrom(b: seq<Name>, keys: seq<Name>, j: nat, lead: nat): (w: nat)
    requires lead < j <= |keys|
    requires forall k :: 0 <= k < j ==> Votes(b, keys[k]) <= Votes(b, keys[lead])
    requires forall k :: 0 <= k < lead ==> Votes(b, keys[k]) < Votes(b, keys[lead])
    ensures w < |keys|
    ensures forall k :: 0 <= k < |keys| ==> Votes(b, keys[k]) <= Votes(b, keys[w])
    ensures forall k :: 0 <= k < w ==> Votes(b, keys[k]) < Votes(b, keys[w])
    decreases |keys| - j
  {
    if j == |keys| then lead
    else if Votes(b, keys[j]) > Votes(b, keys[lead]) then LeaderFrom(b, keys, j + 1, j)
    else LeaderFrom(b, keys, j + 1, lead)
  }

  /** The name a face is labelled with: the majority of its ballots, ties to the name seen first. */
  function Winner(b: seq<Name>): (w: Name)
    requires |b| > 0
    ensures IsVoteWinner(b, w)
  {
    assert b[..0] == [];
    var keys := TallyFrom(b, 0, []);
    assert b[..|b|] == b;
    assert b[0] in keys;
    var lead := LeaderFrom(b, keys, 1, 0);
    WinnerFromLeader(b, keys, lead);
    keys[lead]
  }

  lemma WinnerFromLeader(b: seq<Name>, keys: seq<Name>, lead: nat)
    requires KeysInv(b, |b|, keys) && b[..|b|] == b
    requires lead < |keys|
    requires forall k :: 0 <= k < |keys| ==> Votes(b, keys[k]) <= Votes(b, keys[lead])
    requires forall k :: 0 <= k < lead ==> Votes(b, keys[k]) < Votes(b, keys[lead])
    ensures IsVoteWinner(b, keys[lead])
  {
    var w := keys[lead];
    forall i | 0 <= i < |b|
      ensures Votes(b, b[i]) <= Votes(b, w)
      ensures i < First(b, w) ==> Votes(b, b[i]) < Votes(b, w)
    {
      assert b[i] in keys;
      var k :| 0 <= k < |keys| && keys[k] == b[i];
      if i < First(b, w) {
        assert First(b, keys[k]) <= i < First(b, keys[lead]);
        assert k < lead;
      }
    }
  }

  /** The label of one face: the vote winner when something matched, otherwise nothing. */
  function FaceLabel(names: seq<Name>, matches: MatchVector): (l: Option<Name>)
    requires |matches| <= |names|
    ensures l.None? <==> true !in matches
    ensures l.Some? ==> IsVoteWinner(Ballots(names, matches), l.value)
  {
    if true in matches then Some(Winner(Ballots(names, matches))) else None
  }

  /** A frame as the video stream returns it: nothing, or one match vector per detected face. */
  type Frame = Option<seq<MatchVector>>

  /** The face matcher reports one flag per catalog encoding, and encodings and names are parallel lists. */
  predicate WellFormed(names: seq<Name>, frames: seq<Frame>)
  {
    forall f :: f in frames && f.Some? ==> forall m :: m in f.value ==> |m| == |names|
  }

  /** The per-face labels of a window, frame by frame and face by face; empty frames are skipped. */
  function FaceLabels(names: seq<Name>, frames: seq<Frame>): (ls: seq<Option<Name>>)
    requires WellFormed(names, frames)
  {
    if |frames| == 0 then []
    else
      var here := match frames[0]
        case None => []
        case Some(faces) => seq(|faces|, j requires 0 <= j < |faces| => FaceLabel(names, faces[j]));
      assert forall f :: f in frames[1..] ==> f in frames;
      here + FaceLabels(names, frames[1..])
  }

  /**
   * The names `process_faces` appends to `recognized_persons`, starting from
   * `current_name == cur`: a matched face is recorded only when its label
   * differs from the current name, which it then becomes.
   */
  function Recorded(cur: Name, labels: seq<Option<Name>>): (r: seq<Name>)
    ensures |r| <= |labels|
    ensures forall n :: n in r ==> Some(n) in labels
    ensures |r| > 0 ==> r[0] != cur
    decreases |labels|
  {
    if |labels| == 0 then []
    else match labels[0]
      case None => Recorded(cur, labels[1..])
      case Some(n) => if n != cur then [n] + Recorded(n, labels[1..]) else Recorded(cur, labels[1..])
  }

  /** `cur` is recorded again exactly when some other label comes first and `cur` is seen after it. */
  ghost predicate Reappears(cur: Name, labels: seq<Option<Name>>)
  {
    exists j :: 0 <= j < |labels| && labels[j].Some? && labels[j].value != cur && Some(cur) in labels[j + 1..]
  }

  /** A leading label that is empty or `cur` itself does not change whether `cur` reappears. */
  lemma ReappearsSkip(cur: Name, labels: seq<Option<Name>>)
    requires |labels| > 0 && (labels[0].None? || labels[0] == Some(cur))
    ensures Reappears(cur, labels) <==> Reappears(cur, labels[1..])
  {
    var rest := labels[1..];
    if Reappears(cur, labels) {
      var j :| 0 <= j < |labels| && labels[j].Some? && labels[j].value != cur && Some(cur) in labels[j + 1..];
      assert rest[j - 1] == labels[j] && rest[j - 1 + 1..] == labels[j + 1..];
    }
    if Reappears(cur, rest) {
      var j :| 0 <= j < |rest| && rest[j].Some? && rest[j].value != cur && Some(cur) in rest[j + 1..];
      assert labels[j + 1] == rest[j] && labels[j + 1 + 1..] == rest[j + 1..];
    }
  }

  /** After a leading label other than `cur`, `cur` reappears exactly when it occurs later. */
  lemma ReappearsAfterOther(cur: Name, labels: seq<Option<Name>>)
    requires |labels| > 0 && labels[0].Some? && labels[0].value != cur
    ensures Reappears(cur, labels) <==> Some(cur) in labels[1..]
  {
    if Reappears(cur, labels) {
      var j :| 0 <= j < |labels| && labels[j].Some? && labels[j].value != cur && Some(cur) in labels[j + 1..];
      assert forall k :: j + 1 <= k < |labels| ==> labels[k] == labels[1..][k - 1];
    }
  }

  /** Which names are recorded. */
  lemma {:induction false} RecordedMembers(cur: Name, labels: seq<Option<Name>>, x: Name)
    ensures x in Recorded(cur, labels) <==>
      (x != cur && Some(x) in labels) || (x == cur && Reappears(cur, labels))
    decreases |labels|
  {
    if |labels| > 0 {
      var rest := labels[1..];
      assert labels == [labels[0]] + rest;
      match labels[0]
      case None =>
        RecordedMembers(cur, rest, x);
        ReappearsSkip(cur, labels);
      case Some(n) =>
        if n != cur {
          RecordedMembers(n, rest, x);
          ReappearsAfterOther(cur, labels);
        } else {
          RecordedMembers(cur, rest, x);
          ReappearsSkip(cur, labels);
        }
    }
  }

  /** The recorded list never holds the same name twice in a row, nor starts with the current name. */
  lemma {:induction false} RecordedNoAdjacentRepeats(cur: Name, labels: seq<Option<Name>>)
    ensures NoAdjacentRepeats([cur] + Recorded(cur, labels))
    decreases |labels|
  {
    if |labels| > 0 {
      match labels[0]
      case None => RecordedNoAdjacentRepeats(cur, labels[1..]);
      case Some(n) =>
        if n != cur {
          RecordedNoAdjacentRepeats(n, labels[1..]);
          var r := Recorded(n, labels[1..]);
          assert [cur] + ([n] + r) == [cur] + ([n] + r);
          assert forall i :: 1 < i < |[cur] + ([n] + r)| ==> ([cur] + ([n] + r))[i] == ([n] + r)[i - 1];
        } else {
          RecordedNoAdjacentRepeats(cur, labels[1..]);
        }
    }
  }

  /** A face that matched nothing records nothing and leaves the current name alone. */
  lemma {:induction false} UnmatchedFaceIgnored(cur: Name, before: seq<Option<Name>>, after: seq<Option<Name>>)
    ensures Recorded(cur, before + [None] + after) == Recorded(cur, before + after)
    decreases |before|
  {
    if |before| == 0 {
      assert before + [None] + after == [None] + after;
      assert ([None] + after)[1..] == after;
      assert before + after == after;
    } else {
      assert (before + [None] + after)[0] == before[0];
      assert (before + after)[0] == before[0];
      assert (before + [None] + after)[1..] == before[1..] + [None] + after;
      assert (before + after)[1..] == before[1..] + after;
      match before[0]
      case None => UnmatchedFaceIgnored(cur, before[1..], after);
      case Some(n) =>
        if n != cur {
          UnmatchedFaceIgnored(n, before[1..], after);
        } else {
          UnmatchedFaceIgnored(cur, before[1..], after);
        }
    }
  }

  /**
   * `process_faces`: the set of recorded names, or the empty set when the
   * encodings file is missing.  Every recorded name other than the sentinel
   * is the label of some matched face, and every such label is recorded.
   */
  function ProcessFaces(catalog: Option<seq<Name>>, frames: seq<Frame>): (r: set<Name>)
    requires catalog.Some? ==> WellFormed(catalog.value, frames)
    ensures catalog.None? ==> r == {}
    ensures catalog.Some? ==> forall x :: x != UNKNOWN ==> (x in r <==> Some(x) in FaceLabels(catalog.value, frames))
    ensures catalog.Some? ==> (UNKNOWN in r <==> Reappears(UNKNOWN, FaceLabels(catalog.value, frames)))
  {
    match catalog
    case None => {}
    case Some(names) =>
      var labels := FaceLabels(names, frames);
      var recorded := Recorded(UNKNOWN, labels);
      forall x {
        RecordedMembers(UNKNOWN, labels, x);
      }
      set x | x in recorded
  }

  // ---------------------------------------------------------------------------
  // Voice match
  // ---------------------------------------------------------------------------

  /** One enrolled speaker and the similarity of the recording to each of their stored embeddings. */
  datatype VoiceTemplate = VoiceTemplate(speaker: Name, similarities: seq<real>)

  /** One stored embedding, in the order the nested loops visit them. */
  datatype Candidate = Candidate(speaker: Name, similarity: real)

  function Candidates(templates: seq<VoiceTemplate>): (cs: seq<Candidate>)
  {
    if |templates| == 0 then []
    else
      var t := templates[0];
      seq(|t.similarities|, j requires 0 <= j < |t.similarities| => Candidate(t.speaker, t.similarities[j]))
        + Candidates(templates[1..])
  }

  /** The result pair of `process_voice`: whether a speaker was identified, and who. */
  datatype VoiceMatch = VoiceMatch(authenticated: bool, speaker: Name)

  predicate Passes(similarity: real)
  {
    similarity > VOICE_SIMILARITY_THRESHOLD
  }

  /** Candidate `k` passes the threshold, is a maximum, and is the first maximum. */
  ghost predicate IsFirstBest(cs: seq<Candidate>, k: int)
  {
    && 0 <= k < |cs|
    && Passes(cs[k].similarity)
    && (forall j :: 0 <= j < |cs| ==> cs[j].similarity <= cs[k].similarity)
    && (forall j :: 0 <= j < k ==> cs[j].similarity < cs[k].similarity)
  }

  /** What the best-match loop knows after visiting the first `i` candidates. */
  ghost predicate ScanInv(cs: seq<Candidate>, i: nat, best: real, m: VoiceMatch)
    requires i <= |cs|
  {
    && (m.authenticated <==> exists j :: 0 <= j < i && Passes(cs[j].similarity))
    && (!m.authenticated ==> m.speaker == UNKNOWN && best == 0.0)
    && (m.authenticated ==> exists k :: IsFirstBest(cs[..i], k) && best == cs[k].similarity && m.speaker == cs[k].speaker)
  }

  /** The running best of the loop: the highest similarity kept so far and the pair it selected. */
  datatype Best = Best(similarity: real, result: VoiceMatch)

  /** A candidate above the threshold and the best so far becomes the new first maximum. */
  lemma ScanTake(cs: seq<Candidate>, i: nat, best: real, m: VoiceMatch)
    requires i < |cs| && ScanInv(cs, i, best, m)
    requires Passes(cs[i].similarity) && cs[i].similarity > best
    ensures ScanInv(cs, i + 1, cs[i].similarity, VoiceMatch(true, cs[i].speaker))
  {
    assert cs[..i + 1] == cs[..i] + [cs[i]];
    if m.authenticated {
      var k :| IsFirstBest(cs[..i], k) && best == cs[k].similarity && m.speaker == cs[k].speaker;
      assert forall j :: 0 <= j < i ==> cs[..i][j] == cs[j];
    } else {
      assert forall j :: 0 <= j < i ==> !Passes(cs[j].similarity);
    }
    assert IsFirstBest(cs[..i + 1], i);
  }

  /** Any other candidate leaves the best as it was. */
  lemma ScanKeep(cs: seq<Candidate>, i: nat, best: real, m: VoiceMatch)
    requires i < |cs| && ScanInv(cs, i, best, m)
    requires !(Passes(cs[i].similarity) && cs[i].similarity > best)
    ensures ScanInv(cs, i + 1, best, m)
  {
    assert cs[..i + 1] == cs[..i] + [cs[i]];
    if m.authenticated {
      var k :| IsFirstBest(cs[..i], k) && best == cs[k].similarity && m.speaker == cs[k].speaker;
      assert IsFirstBest(cs[..i + 1], k);
    }
  }

  /** The loop body: a candidate replaces the best only when strictly above the threshold and the best. */
  function Visit(c: Candidate, b: Best): Best
  {
    if Passes(c.similarity) && c.similarity > b.similarity then Best(c.similarity, VoiceMatch(true, c.speaker)) else b
  }

  /** One visit keeps the loop invariant. */
  lemma VisitKeepsInv(cs: seq<Candidate>, i: nat, best: real, m: VoiceMatch)
    requires i < |cs| && ScanInv(cs, i, best, m)
    ensures var b := Visit(cs[i], Best(best, m)); ScanInv(cs, i + 1, b.similarity, b.result)
  {
    if Passes(cs[i].similarity) && cs[i].similarity > best {
      ScanTake(cs, i, best, m);
    } else {
      ScanKeep(cs, i, best, m);
    }
  }

  /** The loop from candidate `i` on, with the best kept so far. */
  function ScanFrom(cs: seq<Candidate>, i: nat, best: real, m: VoiceMatch): (r: Best)
    requires i <= |cs|
    requires ScanInv(cs, i, best, m)
    ensures ScanInv(cs, |cs|, r.similarity, r.result)
    decreases |cs| - i
  {
    if i == |cs| then Best(best, m)
    else
      var b := Visit(cs[i], Best(best, m));
      VisitKeepsInv(cs, i, best, m);
      ScanFrom(cs, i + 1, b.similarity, b.result)
  }

  /**
   * The best-match loop of `process_voice` over a loaded catalog: a speaker is
   * identified exactly when some similarity exceeds the threshold, and then it
   * is the owner of the first maximal similarity.
   */
  function MatchSpeaker(templates: seq<VoiceTemplate>): (r: VoiceMatch)
    ensures r.authenticated <==> exists j :: 0 <= j < |Candidates(templates)| && Passes(Candidates(templates)[j].similarity)
    ensures r.authenticated ==> exists k :: IsFirstBest(Candidates(templates), k) && r.speaker == Candidates(templates)[k].speaker
    ensures !r.authenticated ==> r.speaker == UNKNOWN
  {
    var cs := Candidates(templates);
    var b := ScanFrom(cs, 0, 0.0, VoiceMatch(false, UNKNOWN));
    assert cs[..|cs|] == cs;
    assert ScanInv(cs, |cs|, b.similarity, b.result);
    assert cs == Candidates(templates);
    assert b.result.authenticated <==> exists j :: 0 <= j < |Candidates(templates)| && Passes(Candidates(templates)[j].similarity);
    b.result
  }

  /** What the speaker model and the catalog load produce for one recording: scores, or an exception. */
  datatype VoiceScoring = ScoringFailed(detail: string) | Scored(templates: seq<VoiceTemplate>)

  /** The audio files `_cleanup_audio_files` removes, and whether it also swept the stray `.wav` files. */
  datatype Cleanup = Cleanup(removed: seq<string>, sweptWav: bool)

  datatype VoiceOutcome = VoiceOutcome(result: VoiceMatch, cleanup: Cleanup)

  /**
   * `process_voice` after the recording was written to `audioPath`: any
   * exception degrades to `(False, "Unknown")`, and the recording is removed
   * on every path.
   */
  function ProcessVoice(audioPath: string, scoring: VoiceScoring): (r: VoiceOutcome)
    ensures r.cleanup == Cleanup([audioPath], true)
    ensures scoring.ScoringFailed? ==> r.result == VoiceMatch(false, UNKNOWN)
    ensures !r.result.authenticated ==> r.result.speaker == UNKNOWN
    ensures r.result.authenticated ==> scoring.Scored?
    ensures scoring.Scored? ==>
      (r.result.authenticated <==> exists j :: 0 <= j < |Candidates(scoring.templates)| && Passes(Candidates(scoring.templates)[j].similarity))
    ensures r.result.authenticated && scoring.Scored? ==>
      exists k :: IsFirstBest(Candidates(scoring.templates), k) && r.result.speaker == Candidates(scoring.templates)[k].speaker
  {
    if scoring.ScoringFailed? then VoiceOutcome(VoiceMatch(false, UNKNOWN), Cleanup([audioPath], true))
    else VoiceOutcome(MatchSpeaker(scoring.templates), Cleanup([audioPath], true))
  }

  // ---------------------------------------------------------------------------
  // One attempt's sensor results
  // ---------------------------------------------------------------------------

  /** What the camera pass of one attempt produced: an exception, or the encodings file (if present) and the frames seen. */
  datatype FaceCapture = CameraFailed(detail: string) | Captured(catalog: Option<seq<Name>>, frames: seq<Frame>)

  /** What the recording step produced: an exception, or the file written and what scoring it gave. */
  datatype VoiceCapture = RecordingFailed(detail: string) | Recorded(audioPath: string, scoring: VoiceScoring)

  /** The catalog and frames satisfy the face matcher's contract whenever they were captured. */
  predicate CaptureWellFormed(faces: FaceCapture)
  {
    faces.Captured? && faces.catalog.Some? ==> WellFormed(faces.catalog.value, faces.frames)
  }

  /** The faces `process_faces` returns for a successful capture. */
  function RecognizedFaces(faces: FaceCapture): set<Name>
    requires faces.Captured? && CaptureWellFormed(faces)
  {
    ProcessFaces(faces.catalog, faces.frames)
  }

  // ---------------------------------------------------------------------------
  // Fusion
  // ---------------------------------------------------------------------------

  /** The pair `authenticate_user` returns. */
  datatype Fusion = Fusion(authenticated: bool, user: Name)

  /** `authenticate_user`: accept the speaker only when a face with the same name was seen. */
  function AuthenticateUser(faceNames: set<Name>, speaker: Name): (r: Fusion)
    ensures faceNames == {} || speaker == UNKNOWN ==> r == Fusion(false, UNKNOWN)
    ensures r.authenticated <==> faceNames != {} && speaker != UNKNOWN && speaker in faceNames
    ensures r.authenticated ==> r.user == speaker
    ensures !r.authenticated ==> r.user == UNKNOWN || r.user == MISMATCH
  {
    if faceNames == {} || speaker == UNKNOWN then Fusion(false, UNKNOWN)
    else if speaker in faceNames then Fusion(true, speaker)
    else Fusion(false, MISMATCH)
  }

  /** The verdict of the fusion rule as a tagged variant: exactly one holds per attempt. */
  datatype Verdict =
    | Authenticated(identity: Name)
    | RejectedNoFace
    | RejectedNoVoiceMatch
    | RejectedMismatch(voiceIdentity: Name)

  /** The fusion rule stated on the voice result, its rules tried in order. */
  function Fuse(faceNames: set<Name>, voice: VoiceMatch): Verdict
  {
    if faceNames == {} then RejectedNoFace
    else if !voice.authenticated || voice.speaker == UNKNOWN then RejectedNoVoiceMatch
    else if voice.speaker in faceNames then Authenticated(voice.speaker)
    else RejectedMismatch(voice.speaker)
  }

  /** The pair `authenticate_user` reports for each verdict. */
  function Report(v: Verdict): Fusion
  {
    match v
    case Authenticated(id) => Fusion(true, id)
    case RejectedNoFace => Fusion(false, UNKNOWN)
    case RejectedNoVoiceMatch => Fusion(false, UNKNOWN)
    case RejectedMismatch(_) => Fusion(false, MISMATCH)
  }

  /**
   * On every voice result `process_voice` can produce, `authenticate_user`
   * reports exactly the verdict of the ordered fusion rule.
   */
  lemma AuthenticateUserReportsVerdict(faceNames: set<Name>, voice: VoiceMatch)
    requires !voice.authenticated ==> voice.speaker == UNKNOWN
    ensures AuthenticateUser(faceNames, voice.speaker) == Report(Fuse(faceNames, voice))
  {
  }

  // ---------------------------------------------------------------------------
  // Stored voice samples
  // ---------------------------------------------------------------------------

  /** A directory under the dataset, with the listing of its `voices` directory when that exists. */
  datatype UserDir = UserDir(name: string, voices: Option<seq<string>>)

  /** The suffixes `get_database_voices` accepts. */
  predicate IsDatabaseVoice(file: string)
  {
    EndsWith(file, ".wav") || EndsWith(file, ".mp3") || EndsWith(file, ".flac")
  }

  /** The user has a `voices` directory holding at least one accepted file. */
  predicate HasDatabaseVoice(u: UserDir)
  {
    u.voices.Some? && exists f :: f in u.voices.value && IsDatabaseVoice(f)
  }

  /** The accepted voice files of one listing, joined onto `dir`, in listing order. */
  function VoicePaths(dir: string, listing: seq<string>): (ps: seq<string>)
    ensures |ps| <= |listing|
    ensures forall q :: q in ps <==> exists f :: f in listing && IsDatabaseVoice(f) && q == PathJoin(dir, f)
    ensures |ps| == 0 <==> forall f :: f in listing ==> !IsDatabaseVoice(f)
  {
    if |listing| == 0 then []
    else
      var rest := VoicePaths(dir, listing[1..]);
      assert forall f :: f in listing <==> f == listing[0] || f in listing[1..];
      if IsDatabaseVoice(listing[0]) then [PathJoin(dir, listing[0])] + rest else rest
  }

  /** The `voices` directory of a user under the dataset. */
  function UserVoicesDir(database: string, user: string): string
  {
    PathJoin(PathJoin(database, user), "voices")
  }

  /** `p` is the pair the loop builds for `u`: its name and its accepted voice files, joined onto its `voices` directory. */
  predicate VoicesOf(database: string, u: UserDir, p: (string, seq<string>))
  {
    HasDatabaseVoice(u) && p == (u.name, VoicePaths(UserVoicesDir(database, u.name), u.voices.value))
  }

  /**
   * `get_database_voices`: one `(user, files)` pair for every user whose
   * `voices` directory holds at least one accepted file, in listing order; an
   * absent dataset gives no pairs.
   */
  function GetDatabaseVoices(database: string, exists_: bool, users: seq<UserDir>): (r: seq<(string, seq<string>)>)
    ensures !exists_ ==> r == []
    ensures forall p :: p in r ==> |p.1| > 0
    ensures forall p :: p in r ==> exists u :: u in users && VoicesOf(database, u, p)
    ensures exists_ ==> forall u :: u in users && HasDatabaseVoice(u) ==>
      (u.name, VoicePaths(UserVoicesDir(database, u.name), u.voices.value)) in r
  {
    if !exists_ then [] else DatabaseVoicesFrom(database, users)
  }

  function DatabaseVoicesFrom(database: string, users: seq<UserDir>): (r: seq<(string, seq<string>)>)
    ensures |r| <= |users|
    ensures forall p :: p in r ==> |p.1| > 0
    ensures forall p :: p in r ==> exists u :: u in users && VoicesOf(database, u, p)
    ensures forall u :: u in users && HasDatabaseVoice(u) ==>
      (u.name, VoicePaths(UserVoicesDir(database, u.name), u.voices.value)) in r
  {
    if |users| == 0 then []
    else
      var u := users[0];
      var rest := DatabaseVoicesFrom(database, users[1..]);
      assert forall v :: v in users <==> v == u || v in users[1..];
      if HasDatabaseVoice(u) then
        var files := VoicePaths(UserVoicesDir(database, u.name), u.voices.value);
        assert VoicesOf(database, u, (u.name, files));
        [(u.name, files)] + rest
      else
        assert u.voices.Some? ==> VoicePaths(UserVoicesDir(database, u.name), u.voices.value) == [];
        rest
  }
}
