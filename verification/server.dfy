/**
 The `/emotionDetector` handler: runs the detector on the `textToAnalyze`
 query parameter and turns its result into the plain-text reply. How Python
 prints a float inside the f-string is left abstract as `show`.
 */
module Server {
  import opened PyStr
  import opened EmotionDetection

  /** What the handler produces: a text body, or the framework's error page
      when the detector raises. */
  datatype Reply = Text(body: string) | ServerError

  const InvalidText: string := "Invalid text! Please try again!"

  const Lead: string := "For the given statement, the system response is 'anger': "

  /** The closing sentence that names the dominant emotion. */
  function Closing(e: Emotion): string {
    "The dominant emotion is " + Name(e) + "."
  }

  /** f-string interpolation of one field: the number, or `None`.
      `ReplyUsesScores` shows that the `None` branch is never reached for a
      labelled result. */
  function Render(v: Option<real>, show: real -> string): string {
    match v
    case Some(x) => show(x)
    case None => "None"
  }

  /** The reply template over five rendered scores. */
  function Sentence(a: string, d: string, f: string, j: string, s: string, e: Emotion): (t: string)
    ensures |Lead| <= |t| && t[..|Lead|] == Lead
    ensures |Closing(e)| <= |t| && t[|t| - |Closing(e)|..] == Closing(e)
  {
    var body := Lead + a + ", 'disgust': " + d + ", 'fear': " + f + ", 'joy': " + j
      + " and 'sadness': " + s + ". ";
    assert (body + Closing(e))[..|Lead|] == Lead;
    body + Closing(e)
  }

  /** The template filled from a score vector. */
  function ScoreSentence(v: Scores, e: Emotion, show: real -> string): string {
    Sentence(show(v.anger), show(v.disgust), show(v.fear), show(v.joy), show(v.sadness), e)
  }

  /** `analyze_emotion` once the detector has been called. The result always
      holds all six keys, so `not result` is false and every `.get` finds
      its key. */
  function Respond(o: Outcome, show: real -> string): (reply: Reply)
    ensures reply == ServerError <==> o.Raised?
    ensures reply == Text(InvalidText) <==> o.Returned? && o.result.dominant.None?
    ensures o.Returned? && o.result.dominant.Some? ==>
      && reply.Text?
      && |Lead| <= |reply.body| && reply.body[..|Lead|] == Lead
      && DominantOfReply(reply.body) == o.result.dominant
  {
    match o
    case Raised(_) => ServerError
    case Returned(r) =>
      if r.dominant.None? then Text(InvalidText)
      else
        var a, d, f, j, s := Render(r.anger, show), Render(r.disgust, show), Render(r.fear, show),
                             Render(r.joy, show), Render(r.sadness, show);
        SentenceIsNotInvalid(a, d, f, j, s, r.dominant.value);
        ReplyNamesDominant(a, d, f, j, s, r.dominant.value);
        Text(Sentence(a, d, f, j, s, r.dominant.value))
  }

  /** `GET /emotionDetector?textToAnalyze=...`, with `None` for a missing
      parameter and `remote` for what the service does. */
  function AnalyzeEmotion(param: Option<string>, remote: Remote, show: real -> string): (reply: Reply)
    ensures reply.Text? && reply.body != InvalidText ==>
      && Detect(param, remote).Returned?
      && DominantOfReply(reply.body) == Detect(param, remote).result.dominant
      && DominantOfReply(reply.body).Some?
  {
    Respond(Detect(param, remote), show)
  }

  /** A filled-in template is never the invalid-text message: it is longer. */
  lemma SentenceIsNotInvalid(a: string, d: string, f: string, j: string, s: string, e: Emotion)
    ensures Sentence(a, d, f, j, s, e) != InvalidText
  {
    assert |InvalidText| < |Lead|;
  }

  /** The invalid-text message appears exactly for blank or missing text and
      for a 400 reply. */
  lemma InvalidIff(param: Option<string>, remote: Remote, show: real -> string)
    ensures AnalyzeEmotion(param, remote, show) == Text(InvalidText) <==>
      IsBlankInput(param) || (remote.Response? && remote.status == 400)
  {
    NullDominantIff(param, remote);
    var o := Detect(param, remote);
    if o.Returned? && o.result.dominant.Some? {
      var r := o.result;
      SentenceIsNotInvalid(Render(r.anger, show), Render(r.disgust, show), Render(r.fear, show),
                           Render(r.joy, show), Render(r.sadness, show), r.dominant.value);
    }
  }

  /** A request without `textToAnalyze` always gets the invalid-text
      message. */
  lemma MissingParamIsInvalid(remote: Remote, show: real -> string)
    ensures AnalyzeEmotion(None, remote, show) == Text(InvalidText)
  {
    InvalidIff(None, remote, show);
  }

  /** The handler fails exactly when the detector raises on an empty
      prediction list. */
  lemma ServerErrorIff(param: Option<string>, remote: Remote, show: real -> string)
    ensures AnalyzeEmotion(param, remote, show) == ServerError <==>
      !IsBlankInput(param) && remote.Response? && remote.status != 400 && remote.body == NoPredictions
  {
    NullDominantIff(param, remote);
  }

  /** Whenever the reply is not the invalid-text message, it is the template
      over five real scores: no field is rendered as `None`. */
  lemma ReplyUsesScores(param: Option<string>, remote: Remote, show: real -> string)
    requires Detect(param, remote).Returned?
    requires Detect(param, remote).result.dominant.Some?
    ensures var r := Detect(param, remote).result;
      exists v: Scores ::
        && r == Filled(v, r.dominant.value)
        && AnalyzeEmotion(param, remote, show) == Text(ScoreSentence(v, r.dominant.value, show))
  {
    NullDominantIff(param, remote);
    var r := Detect(param, remote).result;
    var v := Scores(r.anger.value, r.disgust.value, r.fear.value, r.joy.value, r.sadness.value);
    assert r == Filled(v, r.dominant.value);
  }

  /** A parsed reply reaches the user as the template over its own scores,
      in the order anger, disgust, fear, joy, sadness. */
  lemma ParsedReply(param: Option<string>, status: int, v: Scores, show: real -> string)
    requires !IsBlankInput(param) && status != 400
    ensures exists e: Emotion ::
      && IsDominant(v, e)
      && AnalyzeEmotion(param, Response(status, Predictions(v)), show) == Text(ScoreSentence(v, e, show))
  {
    var e := Dominant(v);
    assert Detect(param, Response(status, Predictions(v))) == Interpret(status, Predictions(v));
    assert Interpret(status, Predictions(v)) == Returned(Filled(v, e));
    assert IsDominant(v, e);
  }

  /** With non-blank text a transport failure is never visible: the user
      gets the template over the canned scores of the matched marker group. */
  lemma TransportFailureHidden(text: string, show: real -> string)
    requires !IsBlankInput(Some(text))
    ensures var w := KeywordFallback(text);
      AnalyzeEmotion(Some(text), TransportError, show) == Text(ScoreSentence(w.scores, w.top, show))
    ensures AnalyzeEmotion(Some(text), TransportError, show) != Text(InvalidText)
  {
    InvalidIff(Some(text), TransportError, show);
  }

  /** `t` ends with `suf`. */
  predicate EndsWith(t: string, suf: string) {
    |suf| <= |t| && t[|t| - |suf|..] == suf
  }

  /** Reads the dominant emotion back from a reply body. */
  function DominantOfReply(t: string): Option<Emotion> {
    if EndsWith(t, Closing(Anger)) then Some(Anger)
    else if EndsWith(t, Closing(Disgust)) then Some(Disgust)
    else if EndsWith(t, Closing(Fear)) then Some(Fear)
    else if EndsWith(t, Closing(Joy)) then Some(Joy)
    else if EndsWith(t, Closing(Sadness)) then Some(Sadness)
    else None
  }

  /** Two suffixes of one string: the shorter is a suffix of the longer. */
  lemma SuffixOfSuffix(t: string, y: string, z: string)
    requires EndsWith(t, y) && EndsWith(t, z) && |z| <= |y|
    ensures EndsWith(y, z)
  {
    assert y[|y| - |z|..] == t[|t| - |z|..];
  }

  /** No closing sentence ends with another one: the names differ, and a
      shorter name would put the space before it inside the longer name. */
  lemma ClosingsDistinct(e: Emotion, k: Emotion)
    requires e != k
    ensures !EndsWith(Closing(e), Closing(k))
  {
    var ce, ck := Closing(e), Closing(k);
    var off := |ce| - |ck|;
    if off == 0 {
      assert ce[24] != ck[24];
    } else if off > 0 {
      assert ce[off..][23] == ce[off + 23] == Name(e)[off - 1];
      assert Name(e)[off - 1] != ' ';
      assert ck[23] == ' ';
    }
  }

  /** A string ending with one closing sentence ends with no other. */
  lemma OnlyClosing(t: string, e: Emotion)
    requires EndsWith(t, Closing(e))
    ensures forall k :: EndsWith(t, Closing(k)) <==> k == e
  {
    forall k | k != e && EndsWith(t, Closing(k)) ensures false {
      if |Closing(k)| <= |Closing(e)| {
        SuffixOfSuffix(t, Closing(e), Closing(k));
        ClosingsDistinct(e, k);
      } else {
        SuffixOfSuffix(t, Closing(k), Closing(e));
        ClosingsDistinct(k, e);
      }
    }
  }

  /** Whatever precedes it, a closing sentence reads back as its emotion. */
  lemma ReadsBackClosing(t: string, e: Emotion)
    requires EndsWith(t, Closing(e))
    ensures DominantOfReply(t) == Some(e)
  {
    OnlyClosing(t, e);
  }

  /** The body names its dominant emotion: the label reads back from any
      filled-in template, and nothing reads back from the invalid-text
      message. */
  lemma ReplyNamesDominant(a: string, d: string, f: string, j: string, s: string, e: Emotion)
    ensures DominantOfReply(Sentence(a, d, f, j, s, e)) == Some(e)
    ensures DominantOfReply(InvalidText) == None
  {
    ReadsBackClosing(Sentence(a, d, f, j, s, e), e);
    assert InvalidText[|InvalidText| - 1] == '!';
  }
}
