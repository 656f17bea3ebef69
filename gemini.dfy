/** The pure parts of the AI wrapper: the MIME type chosen for an image URI, the
    clamping of the two scores of an object analysis, and the record returned
    when the model's reply cannot be parsed. */
module Gemini {
  import opened Optional

  /** The analysis of a photographed object. Scores are integers in this model. */
  datatype ObjectAnalysis = ObjectAnalysis(
    name: string,
    brand: string,
    description: string,
    recyclingScore: int,
    recyclingComment: string,
    conditionScore: int,
    conditionComment: string,
    tips: string)

  // ---------------------------------------------------------------------------
  // MIME type from a URI extension
  // ---------------------------------------------------------------------------

  /** What `s.split(sep).pop()` yields: the text after the last `sep`, or all
      of `s` when it holds no `sep`. */
  function LastSegment(s: string, sep: char): (r: string)
    ensures |r| <= |s| && r == s[|s| - |r|..]
    ensures sep !in r
    ensures |r| == |s| || s[|s| - |r| - 1] == sep
  {
    if s == [] then []
    else if s[|s| - 1] == sep then []
    else LastSegment(s[..|s| - 1], sep) + [s[|s| - 1]]
  }

  function LowerChar(c: char): char
  {
    if 'A' <= c <= 'Z' then (c as int - 'A' as int + 'a' as int) as char else c
  }

  /** Lower-casing of the ASCII letters. */
  function ToLower(s: string): string
  {
    seq(|s|, i requires 0 <= i < |s| => LowerChar(s[i]))
  }

  /** The lower-cased extension of a URI: a suffix's worth of characters with
      no dot and no upper-case ASCII letter. */
  function Extension(uri: string): (e: string)
    ensures |e| <= |uri| && '.' !in e
    ensures forall i | 0 <= i < |e| :: !('A' <= e[i] <= 'Z')
  {
    ToLower(LastSegment(uri, '.'))
  }

  function GetMimeType(uri: string): (mime: string)
    ensures mime in {"image/png", "image/webp", "image/gif", "image/jpeg"}
  {
    var ext := Extension(uri);
    if ext == "png" then "image/png"
    else if ext == "webp" then "image/webp"
    else if ext == "gif" then "image/gif"
    else "image/jpeg"
  }

  /** Each of the three recognised extensions selects its own type, and every
      other extension (including a URI without a dot whose whole text is not
      one of the three) selects JPEG. */
  lemma MimeTypeByExtension(uri: string)
    ensures GetMimeType(uri) == "image/png" <==> Extension(uri) == "png"
    ensures GetMimeType(uri) == "image/webp" <==> Extension(uri) == "webp"
    ensures GetMimeType(uri) == "image/gif" <==> Extension(uri) == "gif"
    ensures GetMimeType(uri) == "image/jpeg" <==> Extension(uri) !in {"png", "webp", "gif"}
  {
  }

  /** The extension is what follows the last dot: appending ".ext" to any URI
      makes the extension that of "ext" alone. */
  lemma ExtensionOfSuffix(prefix: string, ext: string)
    requires '.' !in ext
    ensures Extension(prefix + "." + ext) == ToLower(ext)
  {
    var u := prefix + "." + ext;
    var seg := LastSegment(u, '.');
    assert u[|u| - |ext| - 1] == '.';
    assert seg == u[|u| - |ext|..] == ext;
  }

  lemma LowerCharIdempotent(c: char)
    ensures LowerChar(LowerChar(c)) == LowerChar(c)
    ensures LowerChar(c) == '.' <==> c == '.'
  {
  }

  /** Lower-casing works character by character, so it distributes over
      concatenation. */
  lemma ToLowerConcat(a: string, b: string)
    ensures ToLower(a + b) == ToLower(a) + ToLower(b)
  {
  }

  /** Lower-casing commutes with taking the last dot-separated segment, since it
      never creates nor removes a dot. */
  lemma {:induction false} LastSegmentToLower(s: string)
    ensures LastSegment(ToLower(s), '.') == ToLower(LastSegment(s, '.'))
  {
    if s != [] {
      var init := s[..|s| - 1];
      var c := s[|s| - 1];
      var t := ToLower(s);
      assert s == init + [c];
      ToLowerConcat(init, [c]);
      assert t == ToLower(init) + [LowerChar(c)];
      assert t[..|t| - 1] == ToLower(init);
      LowerCharIdempotent(c);
      if c == '.' {
        assert LastSegment(t, '.') == [];
      } else {
        var seg := LastSegment(init, '.');
        LastSegmentToLower(init);
        assert LastSegment(t, '.') == ToLower(seg) + [LowerChar(c)];
        ToLowerConcat(seg, [c]);
      }
    }
  }

  lemma ToLowerIdempotent(s: string)
    ensures ToLower(ToLower(s)) == ToLower(s)
  {
    forall i | 0 <= i < |s| ensures ToLower(ToLower(s))[i] == ToLower(s)[i] {
      LowerCharIdempotent(s[i]);
    }
  }

  /** The extension test ignores case: two URIs that agree once lower-cased
      ("photo.PNG" and "photo.png") get the same MIME type. */
  lemma MimeTypeIgnoresCase(u1: string, u2: string)
    requires ToLower(u1) == ToLower(u2)
    ensures GetMimeType(u1) == GetMimeType(u2)
  {
    ExtensionIgnoresCase(u1, u2);
  }

  lemma ExtensionIgnoresCase(u1: string, u2: string)
    requires ToLower(u1) == ToLower(u2)
    ensures Extension(u1) == Extension(u2)
  {
    LastSegmentToLower(u1);
    LastSegmentToLower(u2);
  }

  /** An upper-case extension selects its type like the lower-case one. */
  lemma UpperCaseExtensionExample()
    ensures GetMimeType("file:///tmp/photo.PNG") == "image/png"
  {
    ExtensionOfSuffix("file:///tmp/photo", "PNG");
  }

  /** Without a dot the whole text is the extension. */
  lemma NoDotExample()
    ensures GetMimeType("png") == "image/png"
  {
    assert LastSegment("png", '.') == "png";
  }

  /** A query string after the extension defeats the match. */
  lemma QueryStringExample()
    ensures GetMimeType("photo.png?size=2") == "image/jpeg"
  {
    ExtensionOfSuffix("photo", "png?size=2");
  }

  // ---------------------------------------------------------------------------
  // Scores
  // ---------------------------------------------------------------------------

  /** `Math.max(1, Math.min(10, s))` on an integer score. */
  function ClampScore(score: int): (r: int)
    ensures 1 <= r <= 10
    ensures 1 <= score <= 10 ==> r == score
    ensures score < 1 ==> r == 1
    ensures score > 10 ==> r == 10
  {
    var capped := if score < 10 then score else 10;
    if 1 < capped then capped else 1
  }

  predicate ScoresInRange(a: ObjectAnalysis)
  {
    1 <= a.recyclingScore <= 10 && 1 <= a.conditionScore <= 10
  }

  /** The write-back of the clamped scores into a parsed reply: each score is
      clamped on its own, nothing else changes, and a reply already in range
      is left as it is. */
  function ClampScores(parsed: ObjectAnalysis): (r: ObjectAnalysis)
    ensures ScoresInRange(r)
    ensures r.recyclingScore == ClampScore(parsed.recyclingScore)
    ensures r.conditionScore == ClampScore(parsed.conditionScore)
    ensures r == parsed.(recyclingScore := r.recyclingScore, conditionScore := r.conditionScore)
    ensures ScoresInRange(parsed) ==> r == parsed
  {
    parsed.(recyclingScore := ClampScore(parsed.recyclingScore),
            conditionScore := ClampScore(parsed.conditionScore))
  }

  /** Clamping twice is clamping once. */
  lemma ClampScoresIdempotent(parsed: ObjectAnalysis)
    ensures ClampScores(ClampScores(parsed)) == ClampScores(parsed)
  {
  }

  const FALLBACK_NAME := "Objet non identifié"
  const FALLBACK_BRAND := "Marque inconnue"
  const FALLBACK_RECYCLING_COMMENT := "Impossible d'évaluer le recyclage automatiquement."
  const FALLBACK_CONDITION_COMMENT := "Impossible d'évaluer l'état automatiquement."

  /** The record returned when the reply is not valid JSON. */
  function Fallback(raw: string): (r: ObjectAnalysis)
    ensures r.recyclingScore == 5 && r.conditionScore == 5
    ensures |r.description| == (if |raw| < 200 then |raw| else 200) && r.description <= raw
    ensures |raw| <= 200 ==> r.description == raw
    ensures r.tips == raw
  {
    ObjectAnalysis(
      FALLBACK_NAME,
      FALLBACK_BRAND,
      raw[..if |raw| < 200 then |raw| else 200],
      5,
      FALLBACK_RECYCLING_COMMENT,
      5,
      FALLBACK_CONDITION_COMMENT,
      raw)
  }

  /** What the analysis of an object returns, given the raw reply and the
      outcome of parsing it (None when parsing failed). Both paths give scores
      in [1, 10]; a parsed reply keeps everything but its scores. */
  function AnalyzeObjectResult(parsed: Option<ObjectAnalysis>, raw: string): (r: ObjectAnalysis)
    ensures ScoresInRange(r)
    ensures parsed.None? ==> r == Fallback(raw)
    ensures parsed.Some? ==>
      r == parsed.value.(recyclingScore := r.recyclingScore, conditionScore := r.conditionScore)
    ensures parsed.Some? ==>
      r.recyclingScore == ClampScore(parsed.value.recyclingScore)
      && r.conditionScore == ClampScore(parsed.value.conditionScore)
  {
    match parsed
    case None => Fallback(raw)
    case Some(p) => ClampScores(p)
  }

  /** The analysis of an object after the model has replied: a parsed reply
      gets its two scores clamped and written back one after the other; a
      reply that did not parse gives the fallback record. */
  method AnalyzeObject(parsed: Option<ObjectAnalysis>, raw: string) returns (result: ObjectAnalysis)
    ensures result == AnalyzeObjectResult(parsed, raw)
  {
    if parsed.None? {
      return Fallback(raw);
    }
    result := parsed.value;
    result := result.(recyclingScore := ClampScore(result.recyclingScore));
    result := result.(conditionScore := ClampScore(result.conditionScore));
  }
}
