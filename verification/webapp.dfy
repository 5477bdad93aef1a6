/**
 * The web login endpoint: the same capture pipeline as the door widget, with
 * its own acceptance rule, rendered as a welcome page or a message page.
 */
module WebApp {
  import opened Common
  import D = Decision

  /** The page `login` renders. */
  datatype Page = Welcome(name: D.Name) | Message(text: string)

  const MISMATCH_TEXT := "Authentication failed: Face and voice don't match"
  const NO_FACE_TEXT := "No recognized faces detected"

  /**
   * `login`: faces first; voice only when a face was recognized; welcome only
   * when the voice was accepted, named someone, and that someone was seen.
   * An exception renders an error message.
   */
  function Login(models: Step, faces: D.FaceCapture, voice: D.VoiceCapture): (p: Page)
    requires D.CaptureWellFormed(faces)
    ensures p.Welcome? ==> models.Done? && faces.Captured? && voice.Recorded?
    ensures faces.Captured? && models.Done? && D.RecognizedFaces(faces) == {} ==> p == Message(NO_FACE_TEXT)
    ensures p.Welcome? <==>
      && models.Done? && faces.Captured? && voice.Recorded?
      && var v := D.ProcessVoice(voice.audioPath, voice.scoring).result;
         v.authenticated && v.speaker != D.UNKNOWN && v.speaker in D.RecognizedFaces(faces)
    ensures p.Message? && models.Done? && faces.Captured? && voice.Recorded? && D.RecognizedFaces(faces) != {}
      ==> p == Message(MISMATCH_TEXT)
  {
    match models
    case Raised(d) => Message("Authentication error: " + d)
    case Done =>
      match faces
      case CameraFailed(d) => Message("Authentication error: " + d)
      case Captured(_, _) =>
        var recognized := D.RecognizedFaces(faces);
        if recognized != {} then
          match voice
          case RecordingFailed(d) => Message("Authentication error: " + d)
          case Recorded(path, scoring) =>
            var v := D.ProcessVoice(path, scoring).result;
            if v.authenticated && v.speaker != D.UNKNOWN && v.speaker in recognized then Welcome(v.speaker)
            else Message(MISMATCH_TEXT)
        else Message(NO_FACE_TEXT)
  }

  /**
   * The web rule and `authenticate_user` agree: `login` welcomes a speaker
   * exactly when `authenticate_user` on the same faces and speaker accepts
   * that speaker.
   */
  lemma LoginAgreesWithAuthenticateUser(models: Step, faces: D.FaceCapture, voice: D.VoiceCapture)
    requires D.CaptureWellFormed(faces)
    requires models.Done? && faces.Captured? && voice.Recorded?
    ensures var v := D.ProcessVoice(voice.audioPath, voice.scoring).result;
      Login(models, faces, voice) == Welcome(v.speaker) <==>
        D.AuthenticateUser(D.RecognizedFaces(faces), v.speaker) == D.Fusion(true, v.speaker)
  {
  }
}
