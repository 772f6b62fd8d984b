/**
 The emotion detector: validates the text, interprets the outcome of the call
 to the remote classification service, picks the dominant emotion, and, when
 the service cannot be reached, falls back to keyword-matched canned scores.

 The HTTP call and `json.loads` are not modelled; their possible outcomes are
 the `Remote` value the detector receives. Scores are exact reals.
 */
module EmotionDetection {
  import opened PyStr

  datatype Option<T> = None | Some(value: T)

  /** The five emotions the service scores, in the key order of the source's
      score dictionary. */
  datatype Emotion = Anger | Disgust | Fear | Joy | Sadness

  const Order: seq<Emotion> := [Anger, Disgust, Fear, Joy, Sadness]

  /** The dictionary key (and the `dominant_emotion` label) of an emotion. */
  function Name(e: Emotion): (n: string)
    ensures n != [] && NoUpper(n)
    ensures forall i :: 0 <= i < |n| ==> n[i] != ' '
  {
    match e
    case Anger => "anger"
    case Disgust => "disgust"
    case Fear => "fear"
    case Joy => "joy"
    case Sadness => "sadness"
  }

  /** Position of an emotion in `Order`. */
  function Rank(e: Emotion): (k: nat)
    ensures k < |Order| && Order[k] == e
  {
    match e
    case Anger => 0
    case Disgust => 1
    case Fear => 2
    case Joy => 3
    case Sadness => 4
  }

  /** One score per emotion. */
  datatype Scores = Scores(anger: real, disgust: real, fear: real, joy: real, sadness: real)

  function Score(s: Scores, e: Emotion): real {
    match e
    case Anger => s.anger
    case Disgust => s.disgust
    case Fear => s.fear
    case Joy => s.joy
    case Sadness => s.sadness
  }

  function ScoreAt(s: Scores, j: nat): real
    requires j < |Order|
  {
    Score(s, Order[j])
  }

  /** `e` is what Python's `max(scores, key=scores.get)` returns: a maximal
      key, and among maximal keys the one that comes first in `Order`. */
  ghost predicate IsDominant(s: Scores, e: Emotion) {
    && (forall k :: Score(s, k) <= Score(s, e))
    && (forall k :: Rank(k) < Rank(e) ==> Score(s, k) < Score(s, e))
  }

  /** The first-maximum rule picks exactly one emotion. */
  lemma DominantUnique(s: Scores, a: Emotion, b: Emotion)
    requires IsDominant(s, a) && IsDominant(s, b)
    ensures a == b
  {
    assert Order[Rank(a)] == a && Order[Rank(b)] == b;
  }

  /** Python's `max` over the keys from index `i` on, where `best` is the
      maximum found among the keys before `i`. The running maximum is only
      replaced by a strictly greater score, so the first maximum wins. */
  function ArgMaxFrom(s: Scores, i: nat, best: nat): (r: nat)
    requires best < i <= |Order|
    requires forall j :: 0 <= j < i ==> ScoreAt(s, j) <= ScoreAt(s, best)
    requires forall j :: 0 <= j < best ==> ScoreAt(s, j) < ScoreAt(s, best)
    ensures r < |Order|
    ensures forall j :: 0 <= j < |Order| ==> ScoreAt(s, j) <= ScoreAt(s, r)
    ensures forall j :: 0 <= j < r ==> ScoreAt(s, j) < ScoreAt(s, r)
    decreases |Order| - i
  {
    if i == |Order| then best
    else if ScoreAt(s, i) > ScoreAt(s, best) then ArgMaxFrom(s, i + 1, i)
    else ArgMaxFrom(s, i + 1, best)
  }

  /** `max(emotion_scores, key=emotion_scores.get)`. */
  function Dominant(s: Scores): (e: Emotion)
    ensures IsDominant(s, e)
  {
    var r := ArgMaxFrom(s, 1, 0);
    assert forall k :: Score(s, k) == ScoreAt(s, Rank(k));
    Order[r]
  }

  /** The dictionary the detector returns: five scores and the dominant
      label, each possibly `None`. All six keys are always present. */
  datatype EmotionResult = EmotionResult(
    anger: Option<real>,
    disgust: Option<real>,
    fear: Option<real>,
    joy: Option<real>,
    sadness: Option<real>,
    dominant: Option<Emotion>)

  /** The all-`None` result signalling invalid input. */
  const AllNull: EmotionResult := EmotionResult(None, None, None, None, None, None)

  /** A result carrying all five scores and a label. */
  function Filled(s: Scores, top: Emotion): EmotionResult {
    EmotionResult(Some(s.anger), Some(s.disgust), Some(s.fear), Some(s.joy), Some(s.sadness), Some(top))
  }

  /** Every score is present. */
  predicate HasAllScores(r: EmotionResult) {
    r.anger.Some? && r.disgust.Some? && r.fear.Some? && r.joy.Some? && r.sadness.Some?
  }

  /** The body of the service's reply, as `json.loads` and the subscripts
      `['emotionPredictions'][0]['emotion'][...]` see it. */
  datatype Body =
    | NotJson                  // json.loads raises JSONDecodeError
    | MissingKey               // a subscript raises KeyError
    | NoPredictions            // `emotionPredictions` is an empty list: IndexError
    | Predictions(scores: Scores)

  /** What `requests.post` produced. */
  datatype Remote =
    | TransportError           // requests raised a RequestException
    | Response(status: int, body: Body)

  /** Exceptions that escape the detector. */
  datatype PyError = IndexError

  /** A call either returns a result or raises. */
  datatype Outcome = Returned(result: EmotionResult) | Raised(error: PyError)

  // The canned score vectors of the fallback path.
  const AngerVector: Scores := Scores(0.95, 0.02, 0.03, 0.01, 0.04)
  const DisgustVector: Scores := Scores(0.02, 0.95, 0.03, 0.01, 0.04)
  const FearVector: Scores := Scores(0.03, 0.02, 0.95, 0.01, 0.04)
  const SadnessVector: Scores := Scores(0.04, 0.02, 0.03, 0.01, 0.95)
  const JoyVector: Scores := Scores(0.01, 0.02, 0.03, 0.98, 0.04)
  /** Used both when no marker matches and when the reply cannot be parsed. */
  const DefaultVector: Scores := Scores(0.05, 0.03, 0.07, 0.75, 0.15)

  // The lower-case markers, one list per priority group, in test order.
  const AngerMarkers: seq<string> := ["mad", "hate", "angry"]
  const DisgustMarkers: seq<string> := ["disgusted", "disgust"]
  const FearMarkers: seq<string> := ["afraid", "fear"]
  const SadnessMarkers: seq<string> := ["sad"]
  const JoyMarkers: seq<string> := ["glad", "happy", "love"]

  /** The marker group that decides the fallback for an already lower-cased
      text: the first group, in priority order anger, disgust, fear,
      sadness, joy, with a marker occurring in the text; `None` when no
      marker occurs. */
  function MatchedGroup(lowered: string): (g: Option<Emotion>)
    ensures g == Some(Anger) <==> (exists m :: m in AngerMarkers && Occurs(lowered, m))
    ensures g == Some(Disgust) <==>
      && !(exists m :: m in AngerMarkers && Occurs(lowered, m))
      && (exists m :: m in DisgustMarkers && Occurs(lowered, m))
    ensures g == Some(Fear) <==>
      && !(exists m :: m in AngerMarkers + DisgustMarkers && Occurs(lowered, m))
      && (exists m :: m in FearMarkers && Occurs(lowered, m))
    ensures g == Some(Sadness) <==>
      && !(exists m :: m in AngerMarkers + DisgustMarkers + FearMarkers && Occurs(lowered, m))
      && (exists m :: m in SadnessMarkers && Occurs(lowered, m))
    ensures g == Some(Joy) <==>
      && !(exists m :: m in AngerMarkers + DisgustMarkers + FearMarkers + SadnessMarkers && Occurs(lowered, m))
      && (exists m :: m in JoyMarkers && Occurs(lowered, m))
    ensures g == None <==>
      !(exists m :: m in AngerMarkers + DisgustMarkers + FearMarkers + SadnessMarkers + JoyMarkers && Occurs(lowered, m))
  {
    if ContainsAny(lowered, AngerMarkers) then Some(Anger)
    else if ContainsAny(lowered, DisgustMarkers) then Some(Disgust)
    else if ContainsAny(lowered, FearMarkers) then Some(Fear)
    else if ContainsAny(lowered, SadnessMarkers) then Some(Sadness)
    else if ContainsAny(lowered, JoyMarkers) then Some(Joy)
    else None
  }

  /** The canned scores and label of a fallback branch. */
  datatype Verdict = Verdict(scores: Scores, top: Emotion)

  function Canned(g: Option<Emotion>): (v: Verdict)
    ensures forall k :: k != v.top ==> Score(v.scores, k) < Score(v.scores, v.top)
    ensures Dominant(v.scores) == v.top
    ensures g.Some? ==> v.top == g.value
    ensures g.None? ==> v == Verdict(DefaultVector, Joy)
  {
    var v := match g
      case Some(Anger) => Verdict(AngerVector, Anger)
      case Some(Disgust) => Verdict(DisgustVector, Disgust)
      case Some(Fear) => Verdict(FearVector, Fear)
      case Some(Sadness) => Verdict(SadnessVector, Sadness)
      case Some(Joy) => Verdict(JoyVector, Joy)
      case None => Verdict(DefaultVector, Joy);
    assert IsDominant(v.scores, v.top);
    DominantUnique(v.scores, Dominant(v.scores), v.top);
    v
  }

  /** The `except RequestException` branch: keyword search on the
      lower-cased text. */
  function KeywordFallback(text: string): (v: Verdict)
    ensures v == Verdict(AngerVector, Anger) <==> Mentions(text, AngerMarkers)
    ensures v == Verdict(DisgustVector, Disgust) <==>
      !Mentions(text, AngerMarkers) && Mentions(text, DisgustMarkers)
    ensures v == Verdict(FearVector, Fear) <==>
      !Mentions(text, AngerMarkers) && !Mentions(text, DisgustMarkers) && Mentions(text, FearMarkers)
    ensures v == Verdict(SadnessVector, Sadness) <==>
      && !Mentions(text, AngerMarkers) && !Mentions(text, DisgustMarkers) && !Mentions(text, FearMarkers)
      && Mentions(text, SadnessMarkers)
    ensures v == Verdict(JoyVector, Joy) <==>
      && !Mentions(text, AngerMarkers) && !Mentions(text, DisgustMarkers) && !Mentions(text, FearMarkers)
      && !Mentions(text, SadnessMarkers) && Mentions(text, JoyMarkers)
    ensures v == Verdict(DefaultVector, Joy) <==>
      && !Mentions(text, AngerMarkers) && !Mentions(text, DisgustMarkers) && !Mentions(text, FearMarkers)
      && !Mentions(text, SadnessMarkers) && !Mentions(text, JoyMarkers)
  {
    MentionsIffContainsAny(text, AngerMarkers);
    MentionsIffContainsAny(text, DisgustMarkers);
    MentionsIffContainsAny(text, FearMarkers);
    MentionsIffContainsAny(text, SadnessMarkers);
    MentionsIffContainsAny(text, JoyMarkers);
    Canned(MatchedGroup(Lower(text)))
  }

  /** Some marker of the list occurs in `text`, ignoring case. */
  ghost predicate Mentions(text: string, markers: seq<string>) {
    exists m, i :: m in markers && MatchAtIgnoringCase(text, m, i)
  }

  /** For lower-case markers, the `in` tests on the lowered text are a
      case-insensitive search of the original text. */
  lemma MentionsIffContainsAny(text: string, markers: seq<string>)
    requires forall m :: m in markers ==> NoUpper(m)
    ensures ContainsAny(Lower(text), markers) <==> Mentions(text, markers)
  {
    forall m | m in markers
      ensures Occurs(Lower(text), m) <==> exists i :: MatchAtIgnoringCase(text, m, i)
    {
      ContainsIffOccurs(Lower(text), m);
      ContainsLowerIffMatchIgnoringCase(text, m);
    }
  }

  /** `not text or text.strip() == ""`, with `None` for a missing value. */
  predicate IsBlankInput(text: Option<string>): (b: bool)
    ensures b <==> text.None? || AllSpace(text.value)
  {
    if text.None? then true
    else
      StripEmptyIffAllSpace(text.value);
      text.value == [] || Strip(text.value) == []
  }

  /** The part of `emotion_detector` after a reply has arrived: only status
      400 is special-cased, every other status goes on to parse the body. */
  function Interpret(status: int, body: Body): (o: Outcome)
    ensures o.Returned? && o.result.dominant.None? <==> status == 400
    ensures o.Raised? <==> status != 400 && body == NoPredictions
  {
    if status == 400 then Returned(AllNull)
    else
      match body
      case NotJson => Returned(Filled(DefaultVector, Joy))
      case MissingKey => Returned(Filled(DefaultVector, Joy))
      case NoPredictions => Raised(IndexError)
      case Predictions(s) => Returned(Filled(s, Dominant(s)))
  }

  /** `emotion_detector(text)` against the given remote behaviour. */
  function Detect(text: Option<string>, remote: Remote): (o: Outcome)
    ensures o.Returned? && o.result.dominant.Some? ==> HasAllScores(o.result)
    ensures o.Returned? && o.result.dominant.None? ==> o.result == AllNull
  {
    if IsBlankInput(text) then Returned(AllNull)
    else
      match remote
      case TransportError =>
        var v := KeywordFallback(text.value);
        Returned(Filled(v.scores, v.top))
      case Response(status, body) => Interpret(status, body)
  }

  /** Blank input yields the all-`None` result whatever the remote would
      have done: the service is never consulted. */
  lemma BlankIgnoresRemote(text: Option<string>, r1: Remote, r2: Remote)
    requires text.None? || AllSpace(text.value)
    ensures Detect(text, r1) == Detect(text, r2) == Returned(AllNull)
  {}

  /** A 400 reply is reported like blank input, whatever its body. */
  lemma BadRequestLikeBlank(text: Option<string>, body: Body)
    ensures Detect(text, Response(400, body)) == Returned(AllNull)
  {}

  /** Only 400 is special-cased: any other status, 2xx or not, is decided by
      the body alone. */
  lemma OnlyStatus400Special(text: Option<string>, status: int, body: Body)
    requires status != 400
    ensures Detect(text, Response(status, body)) == Detect(text, Response(200, body))
  {}

  /** A parsed reply is returned unchanged with its first-maximum label. */
  lemma ParsedScoresKept(text: Option<string>, status: int, s: Scores)
    requires !IsBlankInput(text) && status != 400
    ensures Detect(text, Response(status, Predictions(s))).Returned?
    ensures var r := Detect(text, Response(status, Predictions(s))).result;
      && r.anger == Some(s.anger) && r.disgust == Some(s.disgust) && r.fear == Some(s.fear)
      && r.joy == Some(s.joy) && r.sadness == Some(s.sadness)
      && r.dominant.Some? && IsDominant(s, r.dominant.value)
  {}

  /** An undecodable reply or a missing key gives the default vector,
      whatever the text. */
  lemma ParseErrorGivesDefault(text: Option<string>, status: int, body: Body)
    requires !IsBlankInput(text) && status != 400
    requires body == NotJson || body == MissingKey
    ensures Detect(text, Response(status, body)) == Returned(Filled(DefaultVector, Joy))
  {}

  /** An empty prediction list escapes as an `IndexError`. */
  lemma EmptyPredictionsRaise(text: Option<string>, status: int)
    requires !IsBlankInput(text) && status != 400
    ensures Detect(text, Response(status, NoPredictions)) == Raised(IndexError)
  {}

  /** Where the result's label is `None`, and where the detector raises. */
  lemma {:induction false} NullDominantIff(text: Option<string>, remote: Remote)
    ensures Detect(text, remote) == Returned(AllNull) <==>
      IsBlankInput(text) || (remote.Response? && remote.status == 400)
    ensures Detect(text, remote).Raised? <==>
      !IsBlankInput(text) && remote.Response? && remote.status != 400 && remote.body == NoPredictions
    ensures Detect(text, remote).Returned? && Detect(text, remote).result.dominant.Some? ==>
      HasAllScores(Detect(text, remote).result)
  {
    var o := Detect(text, remote);
    if !IsBlankInput(text) && !(remote.Response? && remote.status == 400) && o.Returned? {
      assert o.result.dominant.Some?;
    }
  }

  /** On a transport failure the text's markers decide the canned result. */
  lemma TransportUsesKeywords(text: string)
    requires !IsBlankInput(Some(text))
    ensures var v := KeywordFallback(text);
      Detect(Some(text), TransportError) == Returned(Filled(v.scores, v.top))
  {}

  /** Any text mentioning "angry", in any mix of ASCII case, falls back to
      anger. */
  lemma AngryAnyCase(text: string, i: int)
    requires MatchAtIgnoringCase(text, "angry", i)
    ensures KeywordFallback(text) == Verdict(AngerVector, Anger)
  {
    assert "angry" in AngerMarkers;
  }

  /** An anger marker beats every later group: "mad but happy" is anger. */
  lemma MadButHappyIsAnger()
    ensures KeywordFallback("mad but happy") == Verdict(AngerVector, Anger)
  {
    var t := Lower("mad but happy");
    assert t[0..3] == "mad";
    assert OccursAt(t, "mad", 0);
  }

  /** A text with no marker at all falls back to the default vector. */
  lemma NoMarkerGivesDefault(text: string)
    requires !Mentions(text, AngerMarkers) && !Mentions(text, DisgustMarkers) && !Mentions(text, FearMarkers)
    requires !Mentions(text, SadnessMarkers) && !Mentions(text, JoyMarkers)
    ensures KeywordFallback(text) == Verdict(DefaultVector, Joy)
  {}

  /** The "disgusted" test never changes the outcome: every text containing
      it also contains "disgust". */
  lemma DisgustedIsRedundant(lowered: string)
    ensures ContainsAny(lowered, DisgustMarkers) == Contains(lowered, "disgust")
  {
    assert "disgusted" == "disgust" + "ed";
    ContainsPrefixOfPattern(lowered, "disgust", "ed");
  }
}
