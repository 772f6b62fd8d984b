# Emotion detector — a Dafny model

This project models the decision logic of a small Flask service that sends
user text to a remote emotion-classification API (Watson NLP
`EmotionPredict`) and reformats the answer:

- `emotion_detector(text)` rejects missing or blank text, interprets the
  remote reply (status 400, undecodable JSON, missing keys, an empty
  prediction list, or five scores), picks the dominant emotion as Python's
  `max(scores, key=scores.get)` does, and, when the request itself fails,
  falls back to canned scores chosen by a case-insensitive keyword search;
- the `/emotionDetector` handler `analyze_emotion` turns the detector's
  result into either `Invalid text! Please try again!` or the sentence
  `For the given statement, the system response is 'anger': …, 'disgust': …,
  'fear': …, 'joy': … and 'sadness': …. The dominant emotion is <label>.`

The network call and `json.loads` are replaced by a value of type
`Remote` that the detector receives: `TransportError` (requests raised a
`RequestException`) or `Response(status, body)` with `body` one of
`NotJson`, `MissingKey`, `NoPredictions` or `Predictions(scores)`. Scores
are exact `real`s, so the canned literals (0.95, 0.75, …) are exact. How
Python prints a float inside the f-string is a parameter `show: real ->
string`; properties of the reply are stated over its structure only.

Files:

- `pystr.dfy` — module `PyStr`: `str.strip()` (with Python 3's
  whitespace set), ASCII `str.lower()`, and the substring test `pat in s`.
  Each is related to an independent definition: stripping to "the input
  minus whitespace at both ends", the substring scan to "some window equals
  the pattern", and searching the lowered text to a character-by-character
  match that ignores case.
- `emotion_detection.dfy` — module `EmotionDetection`: the result record,
  the remote outcome, first-maximum selection, the keyword fallback and
  `Detect`.
- `server.dfy` — module `Server`: `AnalyzeEmotion` and the reply template.

The model follows the code, including three behaviours that are easy to
miss:

- only status 400 is special-cased; any other status (500, say) goes on to
  parse the body;
- an unparsable reply or a missing key gives the fixed default vector (joy
  0.75) whatever the text — the keyword search is used only when the request
  itself fails;
- an empty `emotionPredictions` list raises an `IndexError` that nothing
  catches; the model returns `Raised(IndexError)` and the handler answers
  with the framework's error page (`ServerError`).

## Model

| member | source | states |
|---|---|---|
| PyStr.TrimStart | EmotionDetection/emotion_detection.py:18 | the result is a suffix of the input, all dropped characters are whitespace, and it does not start with whitespace |
| PyStr.TrimEnd | EmotionDetection/emotion_detection.py:18 | the result is a prefix of the input, all dropped characters are whitespace, and it does not end with whitespace |
| PyStr.IsSpace | EmotionDetection/emotion_detection.py:18 | among ASCII characters, exactly tab, line feed, vertical tab, form feed, carriage return, the four separators U+001C..U+001F and the space count as whitespace |
| PyStr.Strip | EmotionDetection/emotion_detection.py:18 | the stripped text is the input with an all-whitespace prefix and an all-whitespace suffix removed, and it neither starts nor ends with whitespace |
| PyStr.StripEmptyIffAllSpace | EmotionDetection/emotion_detection.py:18 | `text.strip() == ""` holds exactly when every character is whitespace |
| PyStr.LowerChar | EmotionDetection/emotion_detection.py:79 | 'A'..'Z' become the matching letter of 'a'..'z', every other character is unchanged, and the result is never upper-case ASCII |
| PyStr.Lower | EmotionDetection/emotion_detection.py:79 | the lowered text has the same length, each character matches the original ignoring case, and none is upper-case ASCII |
| PyStr.LowerIdempotent | EmotionDetection/emotion_detection.py:79 | lower-casing twice is the same as lower-casing once |
| PyStr.Contains | EmotionDetection/emotion_detection.py:79 | the empty pattern is always found, and a found pattern is no longer than the text |
| PyStr.ContainsIffOccurs | EmotionDetection/emotion_detection.py:79 | the scan for `pat in s` succeeds exactly when some window of `s` equals `pat` |
| PyStr.ContainsPrefixOfPattern | EmotionDetection/emotion_detection.py:88 | a text containing `p + q` contains `p` |
| PyStr.ContainsLowerIffMatchIgnoringCase | EmotionDetection/emotion_detection.py:79 | for a pattern without upper-case letters, `pat in text.lower()` holds exactly when some window of the text matches the pattern ignoring case |
| PyStr.ContainsAny | EmotionDetection/emotion_detection.py:79 | an `or`-chain of `in` tests holds exactly when one of the markers occurs in the text |
| EmotionDetection.Name | EmotionDetection/emotion_detection.py:58-64 | every dictionary key and label is non-empty, has no upper-case ASCII letter and no space |
| EmotionDetection.Rank | EmotionDetection/emotion_detection.py:58-64 | every emotion sits at its own position in the key order anger, disgust, fear, joy, sadness |
| EmotionDetection.DominantUnique | EmotionDetection/emotion_detection.py:65 | at most one emotion is a first maximum of a score vector |
| EmotionDetection.ArgMaxFrom | EmotionDetection/emotion_detection.py:65 | the scan returns a position whose score is at least every score and strictly above every earlier score |
| EmotionDetection.Dominant | EmotionDetection/emotion_detection.py:65 | the dominant emotion has a score at least every other, and every emotion earlier in key order has a strictly smaller score |
| EmotionDetection.MatchedGroup | EmotionDetection/emotion_detection.py:79-132 | the fallback group is anger iff an anger marker occurs, disgust iff no anger marker and a disgust marker occurs, and so on through fear, sadness and joy; no group iff no marker occurs |
| EmotionDetection.Canned | EmotionDetection/emotion_detection.py:79-142 | in every canned vector the label has a strictly larger score than every other emotion, so it is also what the first-maximum rule picks; no group gives the default vector with joy |
| EmotionDetection.KeywordFallback | EmotionDetection/emotion_detection.py:77-132 | the fallback verdict is the anger vector iff an anger marker occurs in any case, the disgust vector iff no anger marker and a disgust marker occurs, and so on through fear, sadness and joy; the default vector iff no marker occurs |
| EmotionDetection.MentionsIffContainsAny | EmotionDetection/emotion_detection.py:79 | for lower-case markers, the `or`-chain of `in` tests on the lowered text is a case-insensitive search of the original text |
| EmotionDetection.IsBlankInput | EmotionDetection/emotion_detection.py:18 | `not text or text.strip() == ""` holds exactly when the text is missing or all whitespace |
| EmotionDetection.Interpret | EmotionDetection/emotion_detection.py:36-142 | after a reply the label is null exactly for status 400, and the call raises exactly for another status with an empty prediction list |
| EmotionDetection.Detect | EmotionDetection/emotion_detection.py:18-142 | a returned result with a label has all five scores; one without a label is the all-null result |
| EmotionDetection.BlankIgnoresRemote | EmotionDetection/emotion_detection.py:18-26 | missing, empty or whitespace-only text gives the all-null result for every remote behaviour, so the service is never consulted |
| EmotionDetection.BadRequestLikeBlank | EmotionDetection/emotion_detection.py:36-44 | a 400 reply gives the same all-null result as blank text, whatever its body |
| EmotionDetection.OnlyStatus400Special | EmotionDetection/emotion_detection.py:36-47 | every status other than 400 is treated like 200: only the body matters |
| EmotionDetection.ParsedScoresKept | EmotionDetection/emotion_detection.py:50-75 | a parsed reply's five scores are returned unchanged with a first-maximum label |
| EmotionDetection.ParseErrorGivesDefault | EmotionDetection/emotion_detection.py:133-142 | undecodable JSON or a missing key gives the default vector with joy, whatever the text |
| EmotionDetection.EmptyPredictionsRaise | EmotionDetection/emotion_detection.py:50 | an empty prediction list makes the detector raise `IndexError` |
| EmotionDetection.NullDominantIff | EmotionDetection/emotion_detection.py:18-142 | the result is all-null exactly for blank text or status 400; the detector raises exactly for non-blank text, another status and an empty prediction list; every labelled result has all five scores |
| EmotionDetection.TransportUsesKeywords | EmotionDetection/emotion_detection.py:77-132 | with non-blank text a failed request returns the canned vector and label of the matched marker group |
| EmotionDetection.AngryAnyCase | EmotionDetection/emotion_detection.py:79-87 | text containing "angry" in any mix of ASCII case (a window matching it ignoring case) falls back to the anger vector |
| EmotionDetection.MadButHappyIsAnger | EmotionDetection/emotion_detection.py:79-123 | "mad but happy" falls back to anger: the first matching group wins |
| EmotionDetection.NoMarkerGivesDefault | EmotionDetection/emotion_detection.py:124-132 | text in which no marker of any group occurs, in any case, falls back to the default vector with joy |
| EmotionDetection.DisgustedIsRedundant | EmotionDetection/emotion_detection.py:88 | testing "disgusted" or "disgust" is the same as testing "disgust" alone |
| Server.Sentence | server.py:30-35 | the reply starts with the fixed lead-in ending in `'anger': ` and ends with "The dominant emotion is <label>." |
| Server.Respond | server.py:19-35 | the handler fails exactly when the detector raised; the reply is the invalid-text message exactly when the label is null; otherwise it starts with the lead-in and names the detector's label |
| Server.AnalyzeEmotion | server.py:15-36 | every reply other than the invalid-text message comes from a returned result and names its dominant emotion |
| Server.SentenceIsNotInvalid | server.py:19-35 | a filled-in template never equals the invalid-text message |
| Server.InvalidIff | server.py:17-20 | the reply is the invalid-text message exactly when the text is missing or blank or the service answered 400 |
| Server.MissingParamIsInvalid | server.py:17-20 | a request without `textToAnalyze` always gets the invalid-text message |
| Server.ServerErrorIff | server.py:18 | the handler fails exactly when the detector raises on an empty prediction list |
| Server.ReplyUsesScores | server.py:22-35 | every labelled result is rendered as the template over its own five scores, in the order anger, disgust, fear, joy, sadness; the `.get` defaults and `None` never appear |
| Server.ParsedReply | server.py:22-35 | a parsed reply reaches the user as the template over its own scores with a first-maximum label |
| Server.TransportFailureHidden | server.py:19-35 | with non-blank text a failed request yields the template over the canned scores, never the invalid-text message |
| Server.ClosingsDistinct | server.py:34 | no closing sentence ends with the closing sentence of another emotion |
| Server.OnlyClosing | server.py:34 | a text ending with one emotion's closing sentence ends with no other emotion's |
| Server.ReadsBackClosing | server.py:34 | a text ending with an emotion's closing sentence reads back as that emotion |
| Server.ReplyNamesDominant | server.py:30-35 | the dominant emotion reads back from every filled-in template, and none reads back from the invalid-text message |

## Left out

- Network I/O: `requests.post`, the URL, the model-id header and the 10-second timeout are replaced by the `Remote` value; a timeout is one of the `TransportError` cases.
- `json.loads` and the reply's JSON shape: folded into `Body`. Shapes that raise something other than `KeyError`, `JSONDecodeError` or `IndexError` (a list where a dict is expected gives `TypeError`, uncaught) are not modelled.
- Scores in a parsed reply that are not comparable numbers (null, NaN, mixed types) make `max` raise or misbehave; all-string scores and ±Infinity are also excluded, because a `real` cannot hold them.
- PyStr.LowerChar: lower-cases ASCII letters only, not all of Unicode; the markers are ASCII, but the few non-ASCII letters whose Python lower case contains ASCII letters (the Kelvin sign, dotted capital I) are left unchanged.
- Python's float formatting in the f-string: left abstract as `show`, so no property depends on how a number prints. Printing is modelled as a function of the real value, so an int and a float with the same value (1 and 1.0, or 0.0 and -0.0) print alike in the model, while Python prints them differently.
- Flask plumbing: app creation, route registration, `request.args`, the `/` route's `render_template('index.html')` and `app.run(host='0.0.0.0', port=5000, debug=True)`.
- Idempotence of the detector: every member is a pure function, so equal inputs and equal remote behaviour give equal results by construction; no lemma states it.
