/**
  `extract_json_from_markdown`: deletes the markdown code fences around the
  model's reply, trims it and decodes it. The decoder, Python's `json.loads`,
  is a parameter of the model.
 */
module Extractor {
  import opened Outcomes
  import opened PyJson
  import opened PyText
  import opened ErrorEnvelope

  const JsonFence: string := "```json"
  const Fence: string := "```"

  /** How `json.loads` fails: a syntax error, whose text goes into the
      envelope, or any other exception it lets escape (a recursion error on
      deep nesting), which passes through unwrapped. */
  datatype DecodeFailure = JSONDecodeError(message: string) | DecoderCrash(message: string)

  /** `json.loads` on the cleaned text. */
  type Decoder = string -> Result<Json, DecodeFailure>

  /** `text.replace("```json", "").replace("```", "").strip()`: the result
      holds neither "```" nor "```json", and is no longer than the text. */
  function CleanFences(text: string): (r: string)
    ensures !ContainsSubstring(r, Fence) && !ContainsSubstring(r, JsonFence)
    ensures |r| <= |text|
  {
    var removed := RemoveAll(RemoveAll(text, JsonFence), Fence);
    RemoveFencesLeavesNone(RemoveAll(text, JsonFence));
    StripKeepsAbsence(removed, Fence);
    NoFenceNoJsonFence(Strip(removed));
    Strip(removed)
  }

  /** The length of the run of backticks `s` starts with. */
  function LeadingTicks(s: string): (n: nat)
    ensures n <= |s|
    ensures forall k :: 0 <= k < n ==> s[k] == '`'
    ensures n < |s| ==> s[n] != '`'
  {
    if s != [] && s[0] == '`' then 1 + LeadingTicks(s[1..]) else 0
  }

  lemma TicksCons(c: char, t: string)
    ensures LeadingTicks([c] + t) == if c == '`' then 1 + LeadingTicks(t) else 0
  {
    assert ([c] + t)[0] == c && ([c] + t)[1..] == t;
  }

  lemma TicksOfFence(s: string)
    requires |s| >= 3 && s[..3] == Fence
    ensures LeadingTicks(s) == 3 + LeadingTicks(s[3..])
  {
    var head := s[..3];
    assert head[0] == s[0] && head[1] == s[1] && head[2] == s[2];
    var t1, t2 := s[1..], s[2..];
    assert t1[0] == s[1] && t1[1..] == t2;
    assert t2[0] == s[2] && t2[1..] == s[3..];
  }

  /** A string that does not start with a fence starts with fewer than three
      backticks. */
  lemma TicksBelowThree(s: string)
    requires |s| >= 3 && s[..3] != Fence
    ensures LeadingTicks(s) < 3
    ensures s[0] == '`' ==> LeadingTicks(s[1..]) < 2
  {
    var head := s[..3];
    assert head == [s[0], s[1], s[2]];
    var t1, t2 := s[1..], s[2..];
    assert t1[0] == s[1] && t1[1..] == t2;
    assert t2[0] == s[2];
  }

  /** A character put in front of fence-free text creates no fence unless
      it is a backtick and the text starts with two more. */
  lemma NoFenceCons(c: char, rest: string)
    requires !ContainsSubstring(rest, Fence)
    requires c == '`' ==> LeadingTicks(rest) < 2
    ensures !ContainsSubstring([c] + rest, Fence)
  {
    var r := [c] + rest;
    forall i | 0 <= i <= |r|
      ensures !OccursAt(r, Fence, i)
    {
      if i == 0 && |r| >= 3 {
        if c == '`' {
          var n := LeadingTicks(rest);
          assert r[..3][n + 1] == rest[n] != '`';
        } else {
          assert r[..3][0] != '`';
        }
      } else if 0 < i && i + 3 <= |r| {
        assert r[i..i + 3] == rest[i - 1..i + 2];
        assert !OccursAt(rest, Fence, i - 1);
      }
    }
  }

  /** Deleting every "```" leaves the leading run of backticks shortened to
      its length modulo 3, and no "```" anywhere: the scan eats each run of
      backticks three at a time from its start, and what stays of a run
      is shorter than three and stays apart from the next run. */
  lemma {:induction false} RemoveFencesLeavesNone(s: string)
    ensures LeadingTicks(RemoveAll(s, Fence)) == LeadingTicks(s) % 3
    ensures !ContainsSubstring(RemoveAll(s, Fence), Fence)
    decreases |s|
  {
    if |s| < 3 {
      assert RemoveAll(s, Fence) == s;
      assert forall i :: 0 <= i <= |s| ==> !OccursAt(s, Fence, i);
    } else if s[..3] == Fence {
      assert RemoveAll(s, Fence) == RemoveAll(s[3..], Fence);
      RemoveFencesLeavesNone(s[3..]);
      TicksOfFence(s);
    } else {
      RemoveAllKeepsFirst(s, Fence);
      RemoveFencesLeavesNone(s[1..]);
      TicksBelowThree(s);
      KeptCharacter(s[0], s[1..], RemoveAll(s[1..], Fence));
      assert s == [s[0]] + s[1..];
    }
  }

  /** The step where the scan keeps the character `c` in front of `t`,
      whose scan gave `rest`. */
  lemma KeptCharacter(c: char, t: string, rest: string)
    requires c == '`' ==> LeadingTicks(t) < 2
    requires LeadingTicks(rest) == LeadingTicks(t) % 3
    requires !ContainsSubstring(rest, Fence)
    ensures LeadingTicks([c] + rest) == LeadingTicks([c] + t) % 3
    ensures !ContainsSubstring([c] + rest, Fence)
  {
    TicksCons(c, rest);
    TicksCons(c, t);
    NoFenceCons(c, rest);
  }

  /** Text free of "```" is free of "```json". */
  lemma NoFenceNoJsonFence(s: string)
    requires !ContainsSubstring(s, Fence)
    ensures !ContainsSubstring(s, JsonFence)
  {
    forall k | 0 <= k <= |s|
      ensures !OccursAt(s, JsonFence, k)
    {
      if k + 7 <= |s| {
        assert s[k..k + 3] == s[k..k + 7][..3];
        assert !OccursAt(s, Fence, k);
      }
    }
  }

  /** Text already free of "```" is only trimmed. */
  lemma FenceFreeOnlyTrimmed(text: string)
    requires !ContainsSubstring(text, Fence)
    ensures CleanFences(text) == Strip(text)
  {
    NoFenceNoJsonFence(text);
    RemoveAllAbsent(text, JsonFence);
    RemoveAllAbsent(text, Fence);
  }

  /** Cleaning is idempotent: cleaned text comes back unchanged. */
  lemma CleanFencesIdempotent(text: string)
    ensures CleanFences(CleanFences(text)) == CleanFences(text)
  {
    var c := CleanFences(text);
    FenceFreeOnlyTrimmed(c);
    StripIdempotent(RemoveAll(RemoveAll(text, JsonFence), Fence));
  }

  /** Fence-free text followed by "```" holds no "```json": that would need
      "```" inside the text. */
  lemma ClosedTextHasNoJsonFence(t: string)
    requires !ContainsSubstring(t, Fence)
    ensures !ContainsSubstring(t + Fence, JsonFence)
  {
    var s := t + Fence;
    forall k | 0 <= k <= |s|
      ensures !OccursAt(s, JsonFence, k)
    {
      if k + 7 <= |s| {
        assert s[k..k + 3] == s[k..k + 7][..3];
        assert s[k..k + 3] == t[k..k + 3];
        assert !OccursAt(t, Fence, k);
      }
    }
  }

  /** The scan deletes exactly the closing "```" after fence-free text, even
      when the text ends in one or two backticks. */
  lemma {:induction false} RemoveClosingFence(t: string)
    requires !ContainsSubstring(t, Fence)
    ensures RemoveAll(t + Fence, Fence) == t
    decreases |t|
  {
    var s := t + Fence;
    if t == [] {
      assert s == Fence && s[3..] == [];
    } else if |t| >= 3 || s[..3] != Fence {
      if |t| >= 3 {
        assert s[..3] == t[..3];
        assert !OccursAt(t, Fence, 0);
      }
      assert RemoveAll(s, Fence) == [s[0]] + RemoveAll(s[1..], Fence);
      assert s[1..] == t[1..] + Fence;
      SliceKeepsAbsence(t, 1, |t|, Fence);
      assert t[1..|t|] == t[1..];
      RemoveClosingFence(t[1..]);
      assert [t[0]] + t[1..] == t;
    } else {
      assert forall k :: 0 <= k < |t| ==> t[k] == s[..3][k];
      assert forall k :: 0 <= k < |t| ==> s[3..][k] == Fence[3 + k - |t|];
      assert s[3..] == t;
    }
  }

  /** Wrapping fence-free text in a "```json" ... "```" fence and cleaning
      it gives the trimmed text back; single backticks inside, even right
      before the closing fence, survive. */
  lemma FencedTextRecovered(t: string)
    requires !ContainsSubstring(t, Fence)
    ensures CleanFences(JsonFence + t + Fence) == Strip(t)
  {
    var wrapped := JsonFence + t + Fence;
    assert wrapped[..7] == JsonFence && wrapped[7..] == t + Fence;
    ClosedTextHasNoJsonFence(t);
    RemoveAllAbsent(t + Fence, JsonFence);
    assert RemoveAll(wrapped, JsonFence) == t + Fence;
    RemoveClosingFence(t);
  }

  /** The first replace deletes every "```json", not only the first: two
      fences in a row clean to nothing. */
  lemma BackToBackJsonFencesRemoved()
    ensures CleanFences(JsonFence + JsonFence) == []
  {
    assert !ContainsSubstring([] + JsonFence[..6], JsonFence);
    RemoveAllLeftmost([], JsonFence, JsonFence);
    RemoveAllLeftmost([], [], JsonFence);
    assert [] + JsonFence + JsonFence == JsonFence + JsonFence;
    assert [] + JsonFence + [] == JsonFence;
  }

  /** The error message the extractor puts in its envelope. */
  function DecodeErrorMessage(decoderMessage: string): string {
    "extract_json_from_markdown: " + decoderMessage
  }

  /** `extract_json_from_markdown(text)`: the decoder sees the cleaned text;
      what it returns is passed on unchanged, and a syntax error yields no
      value but a 500 envelope whose text reads back with the extractor's
      prefix before the decoder's message. */
  function ExtractJsonFromMarkdown(text: string, decode: Decoder): (r: Result<Json, Exc>)
    ensures decode(CleanFences(text)).Success? ==> r == Success(decode(CleanFences(text)).value)
    ensures decode(CleanFences(text)).Failure? ==> r.Failure?
    ensures decode(CleanFences(text)).Failure? && decode(CleanFences(text)).error.JSONDecodeError?
        ==> r.Failure? && r.error.Raised? && r.error.env.statusCode == InternalServerError
            && ParseEnvelope(Str(r.error))
               == Some(Envelope(InternalServerError, DecodeErrorMessage(decode(CleanFences(text)).error.message)))
    ensures decode(CleanFences(text)).Failure? && decode(CleanFences(text)).error.DecoderCrash?
        ==> r == Failure(Foreign(decode(CleanFences(text)).error.message))
  {
    match decode(CleanFences(text))
    case Success(v) => Success(v)
    case Failure(JSONDecodeError(m)) =>
      var env := Envelope(InternalServerError, DecodeErrorMessage(m));
      DumpsRoundTrip(env);
      Failure(Raised(env))
    case Failure(DecoderCrash(m)) => Failure(Foreign(m))
  }

  /** A fenced reply decodes exactly as its inside would. */
  lemma FencedReplyExtracted(t: string, decode: Decoder)
    requires !ContainsSubstring(t, Fence)
    ensures ExtractJsonFromMarkdown(JsonFence + t + Fence, decode)
         == ExtractJsonFromMarkdown(t, decode)
  {
    FencedTextRecovered(t);
    FenceFreeOnlyTrimmed(t);
    SameCleanedSameResult(JsonFence + t + Fence, t, decode);
  }

  lemma SameCleanedSameResult(u: string, t: string, decode: Decoder)
    requires CleanFences(u) == CleanFences(t)
    ensures ExtractJsonFromMarkdown(u, decode) == ExtractJsonFromMarkdown(t, decode)
  {
  }
}
