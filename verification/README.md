# Multibiometric door access: a Dafny model

This project models the decision core of a face-and-voice door access system,
together with the tools that build its catalogs. It covers:

- the access decision (`decision.py`). A short camera window yields a set of
  recognized names. Each detected face is labelled by a majority vote over the
  catalog encodings it matches; ties go to the name seen first. A name is
  recorded each time the label changes. A fresh voice recording is matched to
  the enrolled speaker with the first strictly highest similarity above 0.10.
  The two results are fused: access is granted only when the speaker is one of
  the recognized faces.
- the door controller (`iot.py`): a two-state door behind a servo, with a
  simulation mode.
- the door widget and its background authentication attempt (`door.py`), and
  the web login endpoint (`web/app.py`).
- catalog training (`train_modele.py`). The face catalog is parallel lists of
  encodings and names, the name being the image's grandparent directory. The
  voice catalog is one entry per person with at least one usable embedding.
- the enrolment panels that add a user (`addPan.py`) or edit one
  (`editPan.py`). They keep lists of pending taken and uploaded files and of
  deleted rows. On save they issue `rm`, `mkdir`, `mv` and `cp` commands.
- the training panel (`train.py`): the run's progress, status and result
  events, the start/stop guard, and the log capped at 100 lines.

Sensors, models, the file system, random draws, clocks and threads are inputs
to the model:

- a face is the vector of match flags the matcher reports;
- a stored voice embedding is the similarity the speaker model reports for it;
- an image read, an embedding extraction and a training task are outcomes;
- a random name is a sequence of letter draws;
- a directory listing is a sequence of names;
- a log timestamp is a string.

Commands the program runs through a shell are returned as `FileOp` values
(`Remove`, `MakeDir`, `MoveDir`, `Copy`, `ClearDir`) rather than executed.

Modules follow the source files:

| module | file |
|---|---|
| `Common` | shared datatypes |
| `Strings` | Python `split`, `join`, `in`, `endswith`, `split('.')[-1]`, `pathlib` parts, `title`, `str(n)` |
| `Decision` | `decision.py` |
| `Iot` | `iot.py` |
| `Door` | `door.py` |
| `WebApp` | `web/app.py` |
| `TrainModele` | `train_modele.py` |
| `Enrollment` | the bookkeeping shared by `addPan.py` and `editPan.py` |
| `AddPan` | `addPan.py` save |
| `EditPan` | `editPan.py` open and save |
| `TrainPanel` | `train.py` |

## Model

| member | source | states |
|---|---|---|
| Decision.Ballots | src/me2/deploy/decision.py:99-104 | the names at the matching indices; empty exactly when nothing matched; a name is a ballot iff some matching index carries it |
| Decision.TallyFrom | src/me2/deploy/decision.py:100-104 | the keys of `name_counts` are every name with a ballot, in order of first appearance |
| Decision.LeaderFrom | src/me2/deploy/decision.py:106 | `max` over the keys returns a key with the top count that no earlier key ties |
| Decision.Winner | src/me2/deploy/decision.py:99-106 | the label has a ballot, no name has more ballots, and every name first seen earlier has strictly fewer |
| Decision.VoteWinnerUnique | src/me2/deploy/decision.py:106 | the vote rule picks at most one name, so the label is determined by the ballots |
| Decision.FaceLabel | src/me2/deploy/decision.py:94-106 | a face gets a label iff some catalog encoding matches it, and the label is the vote winner |
| Decision.Recorded | src/me2/deploy/decision.py:108-111 | the recorded names are no more than the faces, each is some face's label, and the first differs from the starting name |
| Decision.RecordedMembers | src/me2/deploy/decision.py:57-111 | a name other than the starting one is recorded iff some face is labelled with it; the starting name is recorded iff another label precedes a later occurrence of it |
| Decision.RecordedNoAdjacentRepeats | src/me2/deploy/decision.py:109-111 | the recorded list never repeats a name twice in a row and never starts with "Unknown" |
| Decision.UnmatchedFaceIgnored | src/me2/deploy/decision.py:93-112 | a face that matched nothing leaves the recorded list unchanged |
| Decision.ProcessFaces | src/me2/deploy/decision.py:48-122 | a missing encodings file gives the empty set; otherwise a name other than "Unknown" is in the result iff some face is labelled with it |
| Decision.ScanFrom | src/me2/deploy/decision.py:192-202 | the best-match loop keeps its invariant: authenticated iff some similarity passed, and the kept speaker owns the first maximal passing similarity |
| Decision.MatchSpeaker | src/me2/deploy/decision.py:188-202 | a speaker is identified iff some similarity exceeds 0.10, and it is the owner of the first maximum; otherwise "Unknown" |
| Decision.ProcessVoice | src/me2/deploy/decision.py:163-215 | any scoring exception gives `(False, "Unknown")`; after scoring, authenticated iff some similarity exceeds 0.10, and then the speaker owns the first maximum; an unauthenticated result always names "Unknown"; the recording is removed on every path |
| Decision.AuthenticateUser | src/me2/deploy/decision.py:270-287 | accepts iff faces were seen, the speaker is known and among them, and then reports that speaker; every rejection reports "Unknown" or "Mismatch" |
| Decision.AuthenticateUserReportsVerdict | src/me2/deploy/decision.py:280-287 | on every voice result `process_voice` can return, the fusion equals an independent ordered rule: no face, no voice match, accept, mismatch |
| Decision.VoicePaths | src/me2/deploy/decision.py:235-239 | a path is listed iff it joins the directory with a listed file ending in `.wav`, `.mp3` or `.flac`; the list is empty iff no such file exists |
| Decision.GetDatabaseVoices | src/me2/deploy/decision.py:217-243 | a missing dataset gives no pairs; every pair is some user's name with that user's accepted voice paths under `<dataset>/<user>/voices`, never empty; every user with an accepted voice file has its pair |
| Decision.DatabaseVoicesFrom | src/me2/deploy/decision.py:228-243 | the per-user loop yields at most one pair per user; each pair is a user's name with its accepted voice paths; every user with at least one accepted voice file has its pair |
| Iot.NewController | src/me2/iot/iot.py:33-50 | the door starts closed, and a servo exists iff GPIO is present and the servo constructor succeeded |
| Iot.OpenDoor | src/me2/iot/iot.py:97-114 | the door becomes opened iff the servo step succeeds, otherwise nothing changes; the reported status is the stored one |
| Iot.CloseDoor | src/me2/iot/iot.py:116-133 | the door becomes closed iff the servo step succeeds, otherwise nothing changes; the reported status is the stored one |
| Iot.GetDoorStatus | src/me2/iot/iot.py:135-148 | with GPIO the stored status; always "opened" or "closed" |
| Iot.OperationsPreserveValid | src/me2/iot/iot.py:39-50 | opening and closing keep "servo only with GPIO", and neither changes whether a servo or GPIO is present |
| Iot.CloseIdempotent | src/me2/iot/iot.py:116-133 | closing a closed door reports "closed" and changes nothing |
| Iot.OpenTwice | src/me2/iot/iot.py:97-114 | two opens equal one open whose servo step succeeds if either did; repeating an open changes nothing |
| Iot.NoServoAlwaysMoves | src/me2/iot/iot.py:61-64 | without a servo, open reports "opened" and close reports "closed" |
| Door.VerdictSignal | src/me2/gui_app/door.py:55-67 | the verdict is always a completion signal |
| Door.VerdictMessages | src/me2/gui_app/door.py:55-67 | with faces seen, success iff the speaker is known and among them; "Voice not recognized" for an unknown speaker, a mismatch otherwise; "Authentication failed" is never produced |
| Door.Statuses | src/me2/gui_app/door.py:39-51 | only status updates; the voice status is emitted iff the models loaded and some face was recognized |
| Door.Outcome | src/me2/gui_app/door.py:44-70 | the last signal of a run is its completion |
| Door.Completion | src/me2/gui_app/door.py:44-70 | every path ends in a completion signal, including the exception path |
| Door.AuthenticationRun | src/me2/gui_app/door.py:35-70 | a run is status updates then exactly one completion; no faces gives the fixed three-signal run; voice is recorded only after a face was recognized |
| Door.RunSucceedsIffFused | src/me2/gui_app/door.py:52-67 | a run succeeds iff every step returned and the fusion accepts, and it then carries the speaker |
| Door.ButtonStates | src/me2/gui_app/door.py:147-158 | "closed" enables only open, "opened" enables only close, any other status enables both |
| Door.ButtonsOfferOnlyMoves | src/me2/gui_app/door.py:147-158 | for a status the controller reports, open is enabled iff the door is not opened and close iff it is not closed |
| Door.UpdateDoorStatus | src/me2/gui_app/door.py:137-145 | polling shows the titled status and enables exactly one of open and close, per the button rule; with GPIO both follow the stored door state; nothing else changes |
| Door.NewWidget | src/me2/gui_app/door.py:82-110 | a new widget has no attempt running, guest access enabled, action "Ready", no result, the polled status shown and exactly one of open and close enabled |
| Door.RequestOpen | src/me2/gui_app/door.py:160-176 | a request during an attempt changes nothing; otherwise the attempt starts with open and guest disabled and the result cleared |
| Door.HandleResult | src/me2/gui_app/door.py:182-198 | the door is opened only on success; the result message is shown, guest access re-enabled and the attempt ended in every case |
| Door.CloseRequest | src/me2/gui_app/door.py:200-211 | close is issued without authentication and reports "Door closed manually" |
| Door.GuestOpen | src/me2/gui_app/door.py:213-226 | the override opens without authentication and reports the admin message |
| Door.AttemptOpensOnlyOnSuccess | src/me2/gui_app/door.py:160-198 | over a whole attempt, the door opens when the run succeeds and the servo works, and is untouched when the run fails |
| WebApp.Login | src/me2/deploy/web/app.py:46-70 | welcome iff every step returned and the voice was accepted, named someone, and that someone was seen; no faces gives the no-face message; otherwise the mismatch message |
| WebApp.LoginAgreesWithAuthenticateUser | src/me2/deploy/web/app.py:56-65 | the web rule welcomes a speaker iff `authenticate_user` on the same faces and speaker accepts that speaker |
| TrainModele.Contributions | src/me2/modele/train_modele.py:74-137 | the catalog holds one pair per encoding the images produce, the count the final message reports |
| TrainModele.Contribution | src/me2/modele/train_modele.py:78-116 | an unreadable, non-8-bit, faceless or failing image adds nothing; otherwise one pair per encoding, named after the grandparent directory |
| TrainModele.ContributionsAppend | src/me2/modele/train_modele.py:74-116 | the catalog of two image lists is the concatenation of their catalogs |
| TrainModele.ContributionNames | src/me2/modele/train_modele.py:78-111 | every catalog pair comes from an encoded image and carries that image's person |
| TrainModele.UnencodedImageContributesNothing | src/me2/modele/train_modele.py:81-103 | removing an image that was skipped leaves the catalog unchanged |
| TrainModele.ContributionsEmpty | src/me2/modele/train_modele.py:118-120 | the catalog is empty iff no image produced an encoding |
| TrainModele.DatasetImagePerson | src/me2/modele/train_modele.py:78 | an image at `<root>/<person>/<dir>/<file>` is catalogued under `person` |
| Strings.GrandparentOfDatasetFile | src/me2/modele/train_modele.py:78 | `Path(p).parent.parent.name` of `<root>/<person>/<dir>/<file>` is `person` |
| TrainModele.AddEncodings | src/me2/modele/train_modele.py:109-111 | the inner loop appends the encodings in order, each with the person's name |
| TrainModele.TrainFaceRecognition | src/me2/modele/train_modele.py:48-138 | the two lists stay parallel and equal the catalog pair by pair; success iff the dataset exists and some image produced an encoding |
| TrainModele.Glob | src/me2/modele/train_modele.py:164-165 | a path is globbed iff it joins the directory with a listed file ending in the extension |
| TrainModele.GlobAll | src/me2/modele/train_modele.py:164-165 | a path is gathered iff some listed file ends in one of the extensions |
| TrainModele.VoiceFiles | src/me2/modele/train_modele.py:163-165 | the voice files are exactly the listed `.wav`, `.mp3`, `.flac` and `.m4a` files, joined onto the voices directory |
| TrainModele.GatheredFrom | src/me2/modele/train_modele.py:152-169 | the pair of a person directory: its name and its voice files under `voices`, when it has one |
| TrainModele.GetVoiceDataset | src/me2/modele/train_modele.py:140-171 | no dataset gives no pairs; every pair is a directory's non-empty gathered voice files; every person directory with a voice file appears |
| TrainModele.VoiceDatasetFrom | src/me2/modele/train_modele.py:153-171 | non-directories and persons without a voices directory are skipped |
| TrainModele.Extracted | src/me2/modele/train_modele.py:217-225 | no more embeddings than files, and each one is the extraction result of one of the files |
| TrainModele.ExtractedCountsSuccesses | src/me2/modele/train_modele.py:217-225 | a person's embeddings are as many as the extractions that succeeded |
| TrainModele.PersonEmbeddings | src/me2/modele/train_modele.py:212-230 | a person is kept iff at least one extraction succeeded, with exactly those embeddings |
| TrainModele.TotalCountsSuccesses | src/me2/modele/train_modele.py:246 | the reported total equals the number of successful extractions over the dataset |
| TrainModele.TrainVoiceRecognition | src/me2/modele/train_modele.py:191-248 | saved iff the model loaded and some extraction succeeded; then the catalog is exactly the persons with a success, each with its own successful embeddings in order, and the total counts them |
| Strings.JoinSplit | src/me2/gui_app/train.py:304-307 | `'\n'.join(text.split('\n'))` is `text` |
| Strings.SplitJoin | src/me2/gui_app/train.py:305-307 | splitting a join of newline-free lines gives the lines back |
| Strings.Extension | src/me2/gui_app/addPan.py:130 | `s.split('.')[-1]` holds no '.' and is no longer than `s` |
| Strings.ExtensionOfDotted | src/me2/gui_app/addPan.py:130 | a name `stem.ext` has extension `ext` |
| Strings.TitleOfLowerWord | src/me2/gui_app/door.py:141 | `str.title()` of a lower-case word such as "opened" upper-cases its first letter and keeps the rest |
| Strings.NatToString | src/me2/gui_app/train.py:98 | `str(n)` is non-empty decimal digits that read back as `n` |
| Enrollment.NewPanel | src/me2/gui_app/addPan.py:23-37 | a new panel shows the given rows with nothing pending or deleted |
| Enrollment.ChooseImage | src/me2/gui_app/addPan.py:39-44 | a picked file naming `.png`, `.jpeg` or `.jpg` is shown and pending as uploaded; anything else changes nothing |
| Enrollment.ChooseAudio | src/me2/gui_app/addPan.py:84-89 | a picked file naming `.wav` is shown and pending as uploaded; anything else changes nothing |
| Enrollment.UploadsHaveDot | src/me2/gui_app/addPan.py:42-87 | an accepted upload holds a '.', so it has an extension to keep |
| Enrollment.TakeImage | src/me2/gui_app/addPan.py:73-82 | the capture `<cache>/<name>.jpg` is shown and pending as taken; nothing else changes |
| Enrollment.TakeAudio | src/me2/gui_app/addPan.py:92-101 | the recording `<cache>/<name>.wav` is shown and pending as taken; nothing else changes |
| Enrollment.DeleteImage | src/me2/gui_app/addPan.py:174-179 | no selection changes nothing; otherwise the row's text is queued for removal and exactly that row is removed, the others keeping their order |
| Enrollment.DeleteAudio | src/me2/gui_app/addPan.py:181-186 | no selection changes nothing; otherwise the row's text is queued for removal and exactly that row is removed, the others keeping their order |
| Enrollment.OperationsPreserveConsistent | src/me2/gui_app/addPan.py:39-186 | every panel operation keeps each pending, non-deleted file among the shown rows |
| Enrollment.Removals | src/me2/gui_app/addPan.py:109-111 | one `rm` per deleted row, in deletion order |
| Enrollment.CopyInto | src/me2/gui_app/addPan.py:119-124 | every taken file not deleted is copied into the directory under its own name, and nothing else is |
| Enrollment.CopyFresh | src/me2/gui_app/addPan.py:125-130 | every uploaded file not deleted is copied to a fresh name keeping its extension, and nothing else is |
| Enrollment.Copies | src/me2/gui_app/addPan.py:119-142 | the copies are exactly the pending files not deleted, and images land in the user's faces directory and audios in the voices directory; an uploaded audio goes to a fresh `<voices>/<name>.<ext>` |
| Enrollment.UploadKeepsExtension | src/me2/gui_app/addPan.py:125-130 | an uploaded `stem.ext` is copied to a fresh faces file ending in `ext` |
| Enrollment.CopiedFilesAreShown | src/me2/gui_app/addPan.py:119-142 | on a consistent panel, every copied file is one of the shown rows |
| Enrollment.ClearPending | src/me2/gui_app/addPan.py:145-148 | the pending lists are emptied; rows and deletions are kept |
| Enrollment.Undo | src/me2/gui_app/addPan.py:155-166 | both caches are emptied and nothing pending or deleted remains; rows are kept |
| Enrollment.UndoLeavesNothingToCopy | src/me2/gui_app/addPan.py:155-166 | after undo a save copies nothing |
| Enrollment.AlphabetIsAsciiLetters | src/me2/gui_app/addPan.py:47-49 | the alphabet is exactly the 52 ASCII letters |
| Enrollment.Spell | src/me2/gui_app/addPan.py:50-52 | a draw spells ten ASCII letters |
| Enrollment.GenerateName | src/me2/gui_app/addPan.py:46-57 | the name is the first drawn attempt not already taken; there is none iff every attempt is taken |
| AddPan.AcceptedOps | src/me2/gui_app/addPan.py:109-144 | the removals come first, then the three `mkdir`s of the user, faces and voices directories; the two cache clears come last |
| AddPan.AcceptedCopies | src/me2/gui_app/addPan.py:119-142 | the copies of an accepted save are exactly the kept pending files, images landing in the new user's faces directory, audios in its voices directory, an uploaded audio under a fresh name keeping its extension |
| AddPan.Save | src/me2/gui_app/addPan.py:104-153 | commands are issued iff the name is non-empty and not an existing user; a refusal shows "user already exist!!"; an accepted save clears the pending lists and keeps the deletions |
| AddPan.SaveCopiesShownFiles | src/me2/gui_app/addPan.py:119-142 | on a consistent panel, a save copies only files still shown |
| AddPan.SaveTwiceCopiesOnce | src/me2/gui_app/addPan.py:145-148 | a second save right after an accepted one copies nothing |
| EditPan.Open | src/me2/gui_app/editPan.py:26-46 | the rows are the user's faces and voices listings joined onto their directories, nothing pending, consistent |
| EditPan.GenerateName | src/me2/gui_app/editPan.py:55-67 | the name avoids both the cache listing and the user's own listing; there is none iff every attempt hits one of them |
| EditPan.Classify | src/me2/gui_app/editPan.py:118-195 | rename iff the name is new and unused; in place iff it is the old name; rejected iff empty or another user's name |
| EditPan.AcceptedOps | src/me2/gui_app/editPan.py:119-149 | the removals come first, the directory move right after them when renaming (before any copy into the moved directory), and the two cache clears last |
| EditPan.AcceptedOpsParts | src/me2/gui_app/editPan.py:119-149 | an accepted save issues exactly the removals, the move on a rename, the copies and the cache clears |
| EditPan.AcceptedOpsContents | src/me2/gui_app/editPan.py:123-147 | the directory move is issued iff renaming, and the copies are exactly those of the kept pending files |
| EditPan.Save | src/me2/gui_app/editPan.py:115-195 | a rejection issues nothing and shows the "exists" message; otherwise the accepted commands, with pending cleared and deletions kept; the in-place branch uses the corrected upload destination (see Findings) |
| EditPan.SaveMovesOnlyOnRename | src/me2/gui_app/editPan.py:118-123 | the user directory is moved iff the save is a rename |
| EditPan.SaveCopiesLandInUserDirs | src/me2/gui_app/editPan.py:124-147 | images land in the user's faces directory and audios in the voices directory; an uploaded audio goes to a fresh `<voices>/<name>.<ext>`; for the in-place branch this is the corrected behaviour |
| EditPan.SaveCopiesKeptFiles | src/me2/gui_app/editPan.py:124-185 | an accepted save copies a file iff it is pending and not deleted |
| EditPan.CopyAtOwnPath | src/me2/gui_app/editPan.py:180-184 | as written, each kept uploaded audio goes to `<voices>/<its own path>.<ext>` |
| EditPan.InPlaceCopiesAsWritten | src/me2/gui_app/editPan.py:162-185 | as written, an uploaded-only audio of an in-place save goes to its own path under the voices directory |
| EditPan.AsWrittenUploadMissesVoicesDir | src/me2/gui_app/editPan.py:184 | for an upload path holding '/', the as-written destination is not a file directly in the voices directory |
| EditPan.AsWrittenInPlaceMisplacesUpload | src/me2/gui_app/editPan.py:184 | a panel with one uploaded audio issues exactly that misplaced copy |
| EditPan.AsWrittenExampleDestination | src/me2/gui_app/editPan.py:184 | for user `bob` and upload `/tmp/a.wav` the copy goes to `data/bob/voices//tmp/a.wav.wav` |
| TrainPanel.TotalTasks | src/me2/gui_app/train.py:63 | none exactly when neither box is checked, and two exactly when both are: the number of checked boxes |
| TrainPanel.Successes | src/me2/gui_app/train.py:62-85 | successes never exceed the selected tasks, and equal them iff every selected task succeeded |
| TrainPanel.RunTraining | src/me2/gui_app/train.py:51-101 | a run always ends with a result, and starts with the init status, or with the unavailable result when the trainer is missing |
| TrainPanel.RunReportsOnce | src/me2/gui_app/train.py:51-101 | every run ends with exactly one result event |
| TrainPanel.NoResultBeforeLast | src/me2/gui_app/train.py:51-101 | no result is emitted before the last event |
| TrainPanel.RunProgresses | src/me2/gui_app/train.py:54-101 | the progress values are 10, then 20 and 50 for faces, 60 and 90 for voices, then 100, cut at the task that raised |
| TrainPanel.RunProgressMonotone | src/me2/gui_app/train.py:60-92 | progress never goes back, and a run without exception ends at 100 |
| TrainPanel.RunCleansUpBeforeResult | src/me2/gui_app/train.py:89-98 | cleanup happens iff the run reached its end without exception, and always before the result |
| TrainPanel.RunResult | src/me2/gui_app/train.py:94-101 | the result succeeds iff the run had no exception and every selected task succeeded; a partial success reports `k/n` |
| TrainPanel.Newest | src/me2/gui_app/train.py:306-307 | `lines[-100:]`: the last `min(n, len)` lines |
| TrainPanel.AddLog | src/me2/gui_app/train.py:295-307 | the log keeps at most 100 lines, and they are the newest lines of the log with the entry appended |
| TrainPanel.AddLogKeepsNewest | src/me2/gui_app/train.py:295-307 | the entry just added is the last line of the log |
| TrainPanel.StartTraining | src/me2/gui_app/train.py:246-272 | a start during a run does nothing; with no task selected only a message is logged; otherwise a run starts with start disabled, stop enabled, progress at 0 and the start message logged |
| TrainPanel.StartNeedsATask | src/me2/gui_app/train.py:255-257 | with no task selected nothing starts |
| TrainPanel.StopTraining | src/me2/gui_app/train.py:274-280 | stop acts only during a run, and then finishes it as failed with "Training stopped by user" |
| TrainPanel.TrainingFinished | src/me2/gui_app/train.py:282-293 | the panel returns to idle and logs the message with the success or warning mark |
| TrainPanel.RunLeavesPanelIdle | src/me2/gui_app/train.py:266-293 | after all of a run's events are delivered the panel is idle and its log within 100 lines |
| TrainPanel.Deliver | src/me2/gui_app/train.py:266-293 | only a result ends the run and gives the buttons back; a progress value moves only the bar; the log stays within its cap |
| TrainPanel.DeliverAll | src/me2/gui_app/train.py:266-293 | events without a result leave the run's buttons alone; the log stays within its cap |
| TrainPanel.DeliverEndsWithResult | src/me2/gui_app/train.py:267-269 | delivering any event sequence that ends in a result leaves the panel idle |

## Left out

- Cameras, microphones, the face matcher, the speaker model and `pickle` files are inputs: match vectors, similarity scores, image-read outcomes, extraction results and step outcomes.
- The 3-second capture window, frame timing and the FPS counter are left out: the window is given as its sequence of frames.
- `initialize_models`, `record_audio` and `extract_voice_embedding` in `decision.py` are outcomes (`Step`, `VoiceCapture`, `VoiceScoring`); only their exceptions matter to the core.
- `_cleanup_audio_files` is recorded as the list of removed paths and the `rm -f *.wav` sweep, not performed.
- Qt widgets, signals and threads are state fields and event sequences. Thread termination in `closeEvent` and the 5-second status timer are left out.
- EditPan.Save: the in-place branch copies an uploaded audio to a fresh name in the voices directory, the corrected destination; the copies as written at `editPan.py:184` are modelled by EditPan.InPlaceCopiesAsWritten (see Findings).
- Door.UpdateDoorStatus: the "Error" label for a status poll that raises is not modelled, because the modelled controller never raises.
- Door.HandleResult: the "Door control error" path is not modelled, because the modelled `open_door` never raises.
- The Arduino serial path and `cleanup` in `iot.py` are left out: the serial path is commented out of `open_door` and `close_door`.
- `get_door_status` in simulation mode picks at random; the pick is an input (`coin`).
- Random name draws are inputs. Enrollment.GenerateName returns `None` when every given draw is taken; the source keeps drawing forever.
- The cache-name check compares a name without extension against listing entries that have extensions, so in practice it rarely rejects anything. The model takes the listing as given, which is faithful but makes the guarantee weaker than it looks.
- The commands are shell strings, so a path holding a space or a shell metacharacter is split or reinterpreted by the shell. Each `FileOp` carries whole paths, so the model is cleaner than the source for such names.
- The door widget and the training panel are modelled with their fallback UI, the one built in code when the `.ui` file is missing. That fixes the door widget's initial labels ("Unknown", "Ready", "") and the training panel's button connections. With `train.ui` loaded, `_setup_connections` connects nothing, and start and stop would do nothing.
- The `cp`, `rm`, `mkdir` and `mv` commands run asynchronously with fixed sleeps. In the rename branch the name generator lists the new directory while `mv` may still be running. The model issues commands in order and leaves that race out.
- In both panels, deleting an uploaded row queues an `rm` of the user's original file, outside the dataset. The model reproduces this (`Removals` of every deleted row text).
- Uploaded audio gets its fresh name from the image-name generator, which checks the camera cache and the faces listing. The model only records that a fresh name keeping the extension is used.
- `cf.cashcamera` and `cf.cashaudio` are not defined in `config.py`, which defines `cache_camera` and `cache_audio` (config.py:21-22). AddPan.Save, EditPan.Save, Enrollment.Undo, Enrollment.TakeImage and Enrollment.TakeAudio model the program with those names pointing at the configured caches. As written, the following raise `AttributeError` when they reach those names:
  - every accepted save, at the cache clear (addPan.py:143, editPan.py:148 and :186), after the rm, mkdir, mv and cp commands and before the pending lists are cleared;
  - every undo, at its first line (addPan.py:157, editPan.py:200), with nothing cleared;
  - every copy of an uploaded file, inside the name generator (addPan.py:53, through :129 and :141; editPan.py:63, through :133, :145, :171 and :183);
  - taking a picture or a recording.
- Camera and recorder failures in `takeImage` and `takeAudio` are left out: the generated file name is an input.
- The upload filters are substring tests (`".wav" in path`), as in the source, not suffix tests.
- `DeleteImage` and `DeleteAudio` require the selected row to be below the list length, a guarantee of the Qt list widget.
- Strings.Title models `str.title()` for ASCII letters only.
- `train.py` contains a literal backslash-n sequence at lines 23 and 131, which Python would reject. The model reads each as a line break.
- `_validate_dataset`, the dataset info labels and `home.py` are not part of this model. `BiometricTrainer` construction is taken to succeed, since its model load catches its own exceptions.
- The training log uses one timestamp per delivery of events, and `QTextEdit.append` is modelled as adding a plain line.
- Enrollment.Copies states which files are copied and where, but not the order of the copies (taken images, uploaded images, taken audios, uploaded audios).

## Findings

| source | as written | input that shows it | evidently intended | confidence | as-written member | corrected member |
|---|---|---|---|---|---|---|
| src/me2/gui_app/editPan.py:184 | an in-place save copies an uploaded audio to `<voices>/<its own full path>.<ext>`; the generated `naud` is unused | user `bob`, dataset `data`, uploaded `/tmp/a.wav`: destination `data/bob/voices//tmp/a.wav.wav`, which is not a file in `data/bob/voices`; line 184 is reached only once the cache name is fixed, since line 183 raises first | copy to `<voices>/<naud>.<ext>` as the rename branch does at line 146 | high, not executed | EditPan.AsWrittenInPlaceMisplacesUpload | EditPan.SaveCopiesLandInUserDirs |
