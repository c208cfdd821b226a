/**
  `is_valid_genai_format`: the structural check on the decoded model output.
  It probes the value with Python's `in`, subscripting and `dict.get`, and
  answers false when any probe raises.
 */
module Validator {
  import opened Outcomes
  import opened PyJson

  const TopKeys: seq<string> := ["response", "prompt_version", "response_text"]
  const FileKeys: seq<string> := ["filename", "contents"]
  const ContentKeys: seq<string> := ["summary", "answers", "others"]

  /** The body of the `try` block, step by step; a raised exception is a
      `Failure`. It ends in `True` exactly on the well-formed shape; every
      other path returns `False` or raises. */
  function Probe(data: Json): (r: Result<bool, PyError>)
    ensures r == Success(true) <==> WellFormedAnalysis(data)
  {
    KeyProbes();
    var hasTop :- AllIn(TopKeys, data);
    if !hasTop then Success(false)
    else
      var responseText :- GetItem(data, "response_text");
      var files :- GetOr(responseText, "files", JArray([]));
      if !files.JArray? || files.elems == [] then Success(false)
      else
        var firstFile := files.elems[0];
        var hasFileKeys :- AllIn(FileKeys, firstFile);
        if !hasFileKeys then Success(false)
        else
          var contents :- GetItem(firstFile, "contents");
          AllIn(ContentKeys, contents)
  }

  /** What `"summary"`, `"answers"` and `"others"` being `in` the contents
      asks of it: keys of a dict, elements of a list, or substrings of a
      string. Any other value makes `in` raise. */
  predicate HoldsAnswerKeys(contents: Json) {
    IsContainer(contents)
    && Member("summary", contents) && Member("answers", contents) && Member("others", contents)
  }

  /** The shape the validator accepts, stated directly: a dict with the three
      top-level keys whose `response_text` is a dict with a non-empty list
      `files`, whose first element is a dict with `filename` and `contents`,
      whose `contents` holds the three answer keys. Nothing else is looked at. */
  predicate WellFormedAnalysis(data: Json) {
    data.JObject?
    && "response" in data.members && "prompt_version" in data.members
    && "response_text" in data.members
    && var responseText := data.members["response_text"];
    responseText.JObject? && "files" in responseText.members
    && var files := responseText.members["files"];
    files.JArray? && files.elems != []
    && var firstFile := files.elems[0];
    firstFile.JObject? && "filename" in firstFile.members && "contents" in firstFile.members
    && HoldsAnswerKeys(firstFile.members["contents"])
  }

  /** `is_valid_genai_format(data)`: total, and true exactly on the
      well-formed shape. */
  function IsValidGenAIFormat(data: Json): (ok: bool)
    ensures ok <==> WellFormedAnalysis(data)
  {
    match Probe(data)
    case Success(b) => b
    case Failure(_) => false
  }

  lemma AllInTwo(k0: string, k1: string, c: Json)
    requires IsContainer(c)
    ensures AllIn([k0, k1], c) == Success(Member(k0, c) && Member(k1, c))
  {
    assert [k0, k1][1..] == [k1];
    assert [k1][1..] == [];
  }

  lemma AllInThree(k0: string, k1: string, k2: string, c: Json)
    requires IsContainer(c)
    ensures AllIn([k0, k1, k2], c) == Success(Member(k0, c) && Member(k1, c) && Member(k2, c))
  {
    assert [k0, k1, k2][1..] == [k1, k2];
    AllInTwo(k1, k2, c);
  }

  /** On a container, each of the validator's three `all(...)` probes is
      membership of every key. */
  lemma KeyProbes()
    ensures forall c {:trigger AllIn(TopKeys, c)} :: IsContainer(c)
              ==> AllIn(TopKeys, c) == Success(Member("response", c) && Member("prompt_version", c)
                                               && Member("response_text", c))
    ensures forall c {:trigger AllIn(FileKeys, c)} :: IsContainer(c)
              ==> AllIn(FileKeys, c) == Success(Member("filename", c) && Member("contents", c))
    ensures forall c {:trigger AllIn(ContentKeys, c)} :: IsContainer(c)
              ==> AllIn(ContentKeys, c) == Success(Member("summary", c) && Member("answers", c)
                                                   && Member("others", c))
  {
    forall c | IsContainer(c)
      ensures AllIn(TopKeys, c) == Success(Member("response", c) && Member("prompt_version", c)
                                           && Member("response_text", c))
      ensures AllIn(FileKeys, c) == Success(Member("filename", c) && Member("contents", c))
      ensures AllIn(ContentKeys, c) == Success(Member("summary", c) && Member("answers", c)
                                               && Member("others", c))
    {
      AllInThree("response", "prompt_version", "response_text", c);
      AllInTwo("filename", "contents", c);
      AllInThree("summary", "answers", "others", c);
    }
  }

  /** The value with `response_text.files` replaced. */
  function WithFiles(data: Json, files: seq<Json>): Json
    requires data.JObject? && "response_text" in data.members
    requires data.members["response_text"].JObject?
  {
    var responseText := data.members["response_text"];
    JObject(data.members["response_text" := JObject(responseText.members["files" := JArray(files)])])
  }

  /** Only `files[0]` is inspected: whatever follows it never changes the
      verdict. */
  lemma OnlyFirstFileInspected(data: Json, first: Json, rest: seq<Json>, rest': seq<Json>)
    requires data.JObject? && "response_text" in data.members
    requires data.members["response_text"].JObject?
    ensures IsValidGenAIFormat(WithFiles(data, [first] + rest))
        == IsValidGenAIFormat(WithFiles(data, [first] + rest'))
  {
  }

  /** An empty or missing `files` list is always rejected. */
  lemma EmptyFilesRejected(data: Json)
    requires data.JObject? && "response_text" in data.members
    requires data.members["response_text"].JObject?
    ensures !IsValidGenAIFormat(WithFiles(data, []))
    ensures "files" !in data.members["response_text"].members ==> !IsValidGenAIFormat(data)
  {
  }

  /** A minimal analysis whose only file has the given `contents`. */
  function AnalysisWith(contents: Json): Json {
    JObject(map[
      "response" := JInt(1),
      "prompt_version" := JString("v1"),
      "response_text" := JObject(map["files" := JArray([
        JObject(map["filename" := JString("a"), "contents" := contents])])])])
  }

  /** `contents` is probed only with `in`, so its kind decides how the
      three keys are looked for, and a scalar always fails. */
  lemma ContentsProbedWithIn(contents: Json)
    ensures IsValidGenAIFormat(AnalysisWith(contents)) <==> HoldsAnswerKeys(contents)
    ensures !contents.JObject? && !contents.JArray? && !contents.JString?
        ==> !IsValidGenAIFormat(AnalysisWith(contents))
  {
  }

  /** A list holding the three strings passes; one missing a string fails. */
  lemma ContentsListAccepted()
    ensures IsValidGenAIFormat(AnalysisWith(JArray([JString("others"), JString("answers"), JString("summary")])))
    ensures !IsValidGenAIFormat(AnalysisWith(JArray([JString("summary"), JString("answers")])))
  {
    ContentsProbedWithIn(JArray([JString("others"), JString("answers"), JString("summary")]));
    var partial := [JString("summary"), JString("answers")];
    assert JString("others") !in partial;
    ContentsProbedWithIn(JArray(partial));
  }

  /** A string holding the three words as substrings passes. */
  lemma ContentsStringAccepted()
    ensures IsValidGenAIFormat(AnalysisWith(JString("summary, answers and others")))
  {
    var s := "summary, answers and others";
    assert OccursAt(s, "summary", 0);
    assert OccursAt(s, "answers", 9);
    assert OccursAt(s, "others", 21);
    ContentsProbedWithIn(JString(s));
  }

  /** A minimal well-formed payload passes: leaf values (a number, an empty
      list, an empty dict) are not checked. */
  lemma MinimalPayloadAccepted()
    ensures IsValidGenAIFormat(JObject(map[
      "response" := JInt(1),
      "prompt_version" := JString("v1"),
      "response_text" := JObject(map["files" := JArray([
        JObject(map["filename" := JString("a"),
                    "contents" := JObject(map["summary" := JString("s"),
                                              "answers" := JArray([]),
                                              "others" := JObject(map[])])])])])]))
  {
  }

  /** Values that are not dicts at the top are rejected, never raised on. */
  lemma NonObjectsRejected(data: Json)
    requires !data.JObject?
    ensures !IsValidGenAIFormat(data)
  {
  }
}
