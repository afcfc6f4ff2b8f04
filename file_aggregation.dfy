/**
  The per-file fold of the tool (`process_json_file`): every line of a
  file is one question record with a `texts` and a `tags` array; the fold
  counts questions and words and keeps, per tag, how many questions
  carried it and how many words those questions had.

  Lines arrive already decoded: JSON parsing is not part of the model,
  only its failure (`Undecodable`).
 */
module FileAggregation {
  import opened Wrappers
  import opened Records
  import opened Text

  /** An element of a `texts` or `tags` array: a string or anything else. */
  datatype JsonValue = Str(s: string) | NonString

  /**
    One decoded line. A field is `None` when it is missing or not an
    array; a line that is not a JSON object has both fields `None`.
   */
  datatype Line =
    | Undecodable
    | Record(texts: Option<seq<JsonValue>>, tags: Option<seq<JsonValue>>)

  /** The outcome of reading one file to a string and splitting it in lines. */
  datatype FileContent = ReadFailed | Lines(lines: seq<Line>)

  /** The ways processing one file fails. */
  datatype FileError = ReadError | InvalidJson | NoTextsField | NoTagsField

  /** The fold's result: questions, words and the tag map of one file. */
  datatype FileStats = FileStats(questions: nat, words: nat, tags: map<string, TagData>)

  /** Words of one element of `texts`; non-strings count nothing. */
  function ValueWords(v: JsonValue): nat {
    match v
    case Str(s) => WordCount(s)
    case NonString => 0
  }

  /** Words of a whole `texts` array: the `line_words` of a line. */
  function TextWords(texts: seq<JsonValue>): nat {
    if texts == [] then 0
    else TextWords(texts[..|texts| - 1]) + ValueWords(texts[|texts| - 1])
  }

  /** One more question with `lineWords` words for tag `t`. */
  function Bump(m: map<string, TagData>, t: string, lineWords: nat): map<string, TagData> {
    m[t := TagData(Lookup(m, t).questions + 1, Lookup(m, t).words + lineWords)]
  }

  /** The tag map after the tag loop of one line, element by element. */
  function AddTags(m: map<string, TagData>, tags: seq<JsonValue>, lineWords: nat): map<string, TagData> {
    if tags == [] then m
    else
      var m' := AddTags(m, tags[..|tags| - 1], lineWords);
      match tags[|tags| - 1]
      case Str(t) => Bump(m', t, lineWords)
      case NonString => m'
  }

  /** The error a line raises, if any, in the order the fields are checked. */
  function LineFault(line: Line): Option<FileError> {
    match line
    case Undecodable => Some(InvalidJson)
    case Record(texts, tags) =>
      if texts.None? then Some(NoTextsField)
      else if tags.None? then Some(NoTagsField)
      else None
  }

  /** The accumulated counters after one more line. */
  function Step(acc: FileStats, line: Line): Result<FileStats, FileError> {
    match LineFault(line)
    case Some(e) => Failure(e)
    case None =>
      var lineWords := TextWords(line.texts.value);
      Success(FileStats(acc.questions + 1, acc.words + lineWords,
                        AddTags(acc.tags, line.tags.value, lineWords)))
  }

  /** The fold over the lines of a file, stopping at the first error. */
  function Aggregate(lines: seq<Line>): Result<FileStats, FileError> {
    if lines == [] then Success(FileStats(0, 0, map[]))
    else
      match Aggregate(lines[..|lines| - 1])
      case Failure(e) => Failure(e)
      case Success(acc) => Step(acc, lines[|lines| - 1])
  }

  /** The result of processing one file, a read failure included. */
  function ProcessedFile(content: FileContent): Result<FileStats, FileError> {
    match content
    case ReadFailed => Failure(ReadError)
    case Lines(lines) => Aggregate(lines)
  }

  /** Once a prefix of the lines fails, the whole file fails with that error. */
  lemma {:induction false} FailurePersists(lines: seq<Line>, k: nat, e: FileError)
    requires k <= |lines| && Aggregate(lines[..k]) == Failure(e)
    ensures Aggregate(lines) == Failure(e)
    decreases |lines| - k
  {
    if k < |lines| {
      var p := lines[..k + 1];
      assert p[..|p| - 1] == lines[..k];
      assert lines[..k + 1][..k] == lines[..k];
      FailurePersists(lines, k + 1, e);
    } else {
      assert lines[..k] == lines;
    }
  }

  /**
    The loops of `process_json_file`: counters and tag map updated in
    place line by line, returning early on the first faulty line.
   */
  method ProcessJsonFile(content: FileContent) returns (r: Result<FileStats, FileError>)
    ensures r == ProcessedFile(content)
  {
    if content.ReadFailed? {
      return Failure(ReadError);
    }
    var lines := content.lines;
    var questions: nat, words: nat := 0, 0;
    var tagsCount: map<string, TagData> := map[];
    for i := 0 to |lines|
      invariant Aggregate(lines[..i]) == Success(FileStats(questions, words, tagsCount))
    {
      var line := lines[i];
      assert lines[..i + 1][..i] == lines[..i];
      if line.Undecodable? {
        FailurePersists(lines, i + 1, InvalidJson);
        return Failure(InvalidJson);
      }
      var lineWords: nat := 0;
      if line.texts.None? {
        FailurePersists(lines, i + 1, NoTextsField);
        return Failure(NoTextsField);
      }
      var texts := line.texts.value;
      questions := questions + 1;
      ghost var words0 := words;
      for j := 0 to |texts|
        invariant lineWords == TextWords(texts[..j])
        invariant words == words0 + lineWords
      {
        assert texts[..j + 1][..j] == texts[..j];
        if texts[j].Str? {
          var count := WordCount(texts[j].s);
          words := words + count;
          lineWords := lineWords + count;
        }
      }
      assert texts[..|texts|] == texts;
      if line.tags.None? {
        FailurePersists(lines, i + 1, NoTagsField);
        return Failure(NoTagsField);
      }
      var tags := line.tags.value;
      ghost var tags0 := tagsCount;
      for k := 0 to |tags|
        invariant tagsCount == AddTags(tags0, tags[..k], lineWords)
      {
        assert tags[..k + 1][..k] == tags[..k];
        if tags[k].Str? {
          var tag := tags[k].s;
          var entry := if tag in tagsCount then tagsCount[tag] else TagData(0, 0);
          tagsCount := tagsCount[tag := TagData(entry.questions + 1, entry.words + lineWords)];
        }
      }
      assert tags[..|tags|] == tags;
    }
    assert lines[..|lines|] == lines;
    return Success(FileStats(questions, words, tagsCount));
  }

  // Closed forms of the fold, line by line.

  /** How many times the string `t` occurs in a `tags` array. */
  function Occurrences(tags: seq<JsonValue>, t: string): nat {
    if tags == [] then 0
    else Occurrences(tags[..|tags| - 1], t) + (if tags[|tags| - 1] == Str(t) then 1 else 0)
  }

  /** How many string elements a `tags` array has. */
  function StringCount(tags: seq<JsonValue>): nat {
    if tags == [] then 0
    else StringCount(tags[..|tags| - 1]) + (if tags[|tags| - 1].Str? then 1 else 0)
  }

  /** The `tags` array of a well-formed line, empty otherwise. */
  function LineTags(line: Line): seq<JsonValue> {
    if line.Record? && line.tags.Some? then line.tags.value else []
  }

  /** The words of a well-formed line, zero otherwise. */
  function LineWords(line: Line): nat {
    if line.Record? && line.texts.Some? then TextWords(line.texts.value) else 0
  }

  /** Sum of the line word counts. */
  function TotalWords(lines: seq<Line>): nat {
    if lines == [] then 0 else TotalWords(lines[..|lines| - 1]) + LineWords(lines[|lines| - 1])
  }

  /** Number of occurrences of tag `t` over all lines. */
  function TagQuestions(lines: seq<Line>, t: string): nat {
    if lines == [] then 0
    else TagQuestions(lines[..|lines| - 1], t) + Occurrences(LineTags(lines[|lines| - 1]), t)
  }

  /** Words of the lines carrying tag `t`, once per occurrence. */
  function TagWords(lines: seq<Line>, t: string): nat {
    if lines == [] then 0
    else
      var last := lines[|lines| - 1];
      TagWords(lines[..|lines| - 1], t) + Occurrences(LineTags(last), t) * LineWords(last)
  }

  /** Number of string tag occurrences over all lines. */
  function TagOccurrences(lines: seq<Line>): nat {
    if lines == [] then 0
    else TagOccurrences(lines[..|lines| - 1]) + StringCount(LineTags(lines[|lines| - 1]))
  }

  /** Each occurrence of `t` in a line adds one question and the line's words. */
  lemma {:induction false} AddTagsAt(m: map<string, TagData>, tags: seq<JsonValue>, lineWords: nat, t: string)
    ensures var r := AddTags(m, tags, lineWords);
      && Lookup(r, t) == TagData(Lookup(m, t).questions + Occurrences(tags, t),
                                 Lookup(m, t).words + Occurrences(tags, t) * lineWords)
      && (t in r <==> t in m || Occurrences(tags, t) > 0)
  {
    if tags != [] {
      var p := tags[..|tags| - 1];
      AddTagsAt(m, p, lineWords, t);
      var n := Occurrences(p, t);
      assert (n + 1) * lineWords == n * lineWords + lineWords;
    }
  }

  /** The tag loop of a line adds one question per string tag to the map's total. */
  lemma {:induction false} AddTagsTotal(m: map<string, TagData>, tags: seq<JsonValue>, lineWords: nat)
    ensures TotalQuestions(AddTags(m, tags, lineWords)) == TotalQuestions(m) + StringCount(tags)
  {
    if tags != [] {
      var p := tags[..|tags| - 1];
      AddTagsTotal(m, p, lineWords);
      var m' := AddTags(m, p, lineWords);
      if tags[|tags| - 1].Str? {
        var t := tags[|tags| - 1].s;
        TotalQuestionsUpdate(m', t, TagData(Lookup(m', t).questions + 1, Lookup(m', t).words + lineWords));
      }
    }
  }

  /** A file succeeds exactly when none of its lines is faulty. */
  lemma {:induction false} AggregateSucceeds(lines: seq<Line>)
    ensures Aggregate(lines).Success? <==> forall i :: 0 <= i < |lines| ==> LineFault(lines[i]).None?
  {
    if lines != [] {
      var p := lines[..|lines| - 1];
      AggregateSucceeds(p);
      assert forall i :: 0 <= i < |p| ==> p[i] == lines[i];
    }
  }

  /** `lines[i]` is the first faulty line. */
  predicate FirstFault(lines: seq<Line>, i: nat) {
    && i < |lines| && LineFault(lines[i]).Some?
    && forall j :: 0 <= j < i ==> LineFault(lines[j]).None?
  }

  /** A failing file reports the error of its first faulty line, and only then. */
  lemma {:induction false} AggregateFailsAtFirstFault(lines: seq<Line>, e: FileError)
    ensures Aggregate(lines) == Failure(e) <==>
            exists i: nat :: FirstFault(lines, i) && LineFault(lines[i]) == Some(e)
  {
    if lines != [] {
      var p := lines[..|lines| - 1];
      var last := |lines| - 1;
      AggregateFailsAtFirstFault(p, e);
      assert forall i :: 0 <= i < |p| ==> p[i] == lines[i];
      assert forall i: nat :: i < |p| ==> (FirstFault(p, i) <==> FirstFault(lines, i));
      AggregateSucceeds(p);
      if Aggregate(lines) == Failure(e) {
        if Aggregate(p).Success? {
          assert FirstFault(lines, last);
        }
      }
      if exists i: nat :: FirstFault(lines, i) && LineFault(lines[i]) == Some(e) {
        var i: nat :| FirstFault(lines, i) && LineFault(lines[i]) == Some(e);
        if i == last {
          assert Aggregate(p).Success?;
        }
      }
    }
  }

  /** A successful file counts one question per line and sums the line words. */
  lemma {:induction false} AggregateCounts(lines: seq<Line>)
    requires Aggregate(lines).Success?
    ensures Aggregate(lines).value.questions == |lines|
    ensures Aggregate(lines).value.words == TotalWords(lines)
  {
    if lines != [] {
      AggregateCounts(lines[..|lines| - 1]);
    }
  }

  /**
    In a successful file the entry of `t` counts the occurrences of `t`
    and the words of their lines, and `t` has an entry exactly when it occurs.
   */
  lemma {:induction false} AggregateTag(lines: seq<Line>, t: string)
    requires Aggregate(lines).Success?
    ensures var tags := Aggregate(lines).value.tags;
      && Lookup(tags, t) == TagData(TagQuestions(lines, t), TagWords(lines, t))
      && (t in tags <==> TagQuestions(lines, t) > 0)
  {
    if lines != [] {
      var p := lines[..|lines| - 1];
      AggregateTag(p, t);
      var last := lines[|lines| - 1];
      AddTagsAt(Aggregate(p).value.tags, LineTags(last), LineWords(last), t);
    }
  }

  /** Every tag of a successful file has at least one question. */
  lemma AggregateTagsPositive(lines: seq<Line>)
    requires Aggregate(lines).Success?
    ensures AllPositive(Aggregate(lines).value.tags)
  {
    forall t | t in Aggregate(lines).value.tags
      ensures Aggregate(lines).value.tags[t].questions > 0
    {
      AggregateTag(lines, t);
    }
  }

  /** Summed over all tags, `questions` is the number of string tag occurrences. */
  lemma {:induction false} AggregateTotalQuestions(lines: seq<Line>)
    requires Aggregate(lines).Success?
    ensures TotalQuestions(Aggregate(lines).value.tags) == TagOccurrences(lines)
  {
    if lines != [] {
      var p := lines[..|lines| - 1];
      AggregateTotalQuestions(p);
      var last := lines[|lines| - 1];
      AddTagsTotal(Aggregate(p).value.tags, LineTags(last), LineWords(last));
    }
  }

  // Non-string elements are skipped.

  /** The string elements of an array, in order. */
  function Strings(vs: seq<JsonValue>): (r: seq<JsonValue>) {
    if vs == [] then []
    else Strings(vs[..|vs| - 1]) + (if vs[|vs| - 1].Str? then [vs[|vs| - 1]] else [])
  }

  /** A line with the non-string elements of its arrays dropped. */
  function StringsOnly(line: Line): Line {
    match line
    case Undecodable => Undecodable
    case Record(texts, tags) =>
      Record(if texts.Some? then Some(Strings(texts.value)) else None,
             if tags.Some? then Some(Strings(tags.value)) else None)
  }

  lemma {:induction false} TextWordsStrings(texts: seq<JsonValue>)
    ensures TextWords(Strings(texts)) == TextWords(texts)
  {
    if texts != [] {
      var p := texts[..|texts| - 1];
      TextWordsStrings(p);
      var s := Strings(texts);
      if texts[|texts| - 1].Str? {
        assert s[..|s| - 1] == Strings(p) && s[|s| - 1] == texts[|texts| - 1];
      } else {
        assert s == Strings(p);
      }
    }
  }

  lemma {:induction false} AddTagsStrings(m: map<string, TagData>, tags: seq<JsonValue>, lineWords: nat)
    ensures AddTags(m, Strings(tags), lineWords) == AddTags(m, tags, lineWords)
  {
    if tags != [] {
      var p := tags[..|tags| - 1];
      AddTagsStrings(m, p, lineWords);
      var s := Strings(tags);
      if tags[|tags| - 1].Str? {
        assert s[..|s| - 1] == Strings(p) && s[|s| - 1] == tags[|tags| - 1];
      } else {
        assert s == Strings(p);
      }
    }
  }

  /** One step is blind to the non-string elements of the line. */
  lemma StepStrings(acc: FileStats, line: Line)
    ensures Step(acc, StringsOnly(line)) == Step(acc, line)
  {
    if line.Record? && line.texts.Some? && line.tags.Some? {
      TextWordsStrings(line.texts.value);
      AddTagsStrings(acc.tags, line.tags.value, TextWords(line.texts.value));
    }
  }

  /** Dropping every non-string element of `texts` and `tags` changes nothing. */
  lemma {:induction false} NonStringsIgnored(lines: seq<Line>)
    ensures Aggregate(seq(|lines|, i requires 0 <= i < |lines| => StringsOnly(lines[i]))) == Aggregate(lines)
  {
    var stripped := seq(|lines|, i requires 0 <= i < |lines| => StringsOnly(lines[i]));
    if lines != [] {
      var p := lines[..|lines| - 1];
      NonStringsIgnored(p);
      assert stripped[..|stripped| - 1] == seq(|p|, i requires 0 <= i < |p| => StringsOnly(p[i]));
      if Aggregate(p).Success? {
        StepStrings(Aggregate(p).value, lines[|lines| - 1]);
      }
    }
  }

  /** The fold over a file with one more line. */
  lemma AggregateSnoc(lines: seq<Line>, line: Line)
    ensures Aggregate(lines + [line]) ==
      match Aggregate(lines)
      case Failure(e) => Failure(e)
      case Success(acc) => Step(acc, line)
  {
    assert (lines + [line])[..|lines|] == lines;
  }

  /** The `line_words` of the texts of the example lines below. */
  lemma ExampleLineWords(x: string, y: string, z: string)
    requires WordCount(x) == 5 && WordCount(y) == 5 && WordCount(z) == 5
    ensures TextWords([Str(x), Str(y)]) == 10
    ensures TextWords([Str(z)]) == 5
  {
    var two, one := [Str(x), Str(y)], [Str(z)];
    assert two[..1] == [Str(x)] && [Str(x)][..0] == [] && one[..0] == [];
    assert TextWords([Str(x)]) == 5;
  }

  /** The tag maps after the tag loops of the example lines below. */
  lemma ExampleLineTags()
    ensures AddTags(map[], [Str("A"), Str("B")], 10) == map["A" := TagData(1, 10), "B" := TagData(1, 10)]
    ensures AddTags(map["A" := TagData(1, 10), "B" := TagData(1, 10)], [Str("A")], 5) ==
      map["A" := TagData(2, 15), "B" := TagData(1, 10)]
  {
    assert [Str("A"), Str("B")][..1] == [Str("A")] && [Str("A")][..0] == [];
  }

  /** The first two example lines. */
  lemma ExampleFirstLines(x: string, y: string, z: string)
    requires WordCount(x) == 5 && WordCount(y) == 5 && WordCount(z) == 5
    ensures var l1 := Record(Some([Str(x), Str(y)]), Some([Str("A"), Str("B")]));
      var l2 := Record(Some([Str(z)]), Some([Str("A")]));
      Aggregate([l1, l2]) == Success(FileStats(2, 15, map["A" := TagData(2, 15), "B" := TagData(1, 10)]))
  {
    ExampleLineWords(x, y, z);
    ExampleLineTags();
    var l1 := Record(Some([Str(x), Str(y)]), Some([Str("A"), Str("B")]));
    var l2 := Record(Some([Str(z)]), Some([Str("A")]));
    AggregateSnoc([], l1);
    assert [] + [l1] == [l1];
    AggregateSnoc([l1], l2);
    assert [l1] + [l2] == [l1, l2];
  }

  /**
    Three lines: two texts of five words each with tags A and B, one
    text of five words with tag A, and no texts and no tags.
   */
  lemma ThreeLineExample(x: string, y: string, z: string)
    requires WordCount(x) == 5 && WordCount(y) == 5 && WordCount(z) == 5
    ensures var lines := [Record(Some([Str(x), Str(y)]), Some([Str("A"), Str("B")])),
                          Record(Some([Str(z)]), Some([Str("A")])),
                          Record(Some([]), Some([]))];
      Aggregate(lines) == Success(FileStats(3, 15, map["A" := TagData(2, 15), "B" := TagData(1, 10)]))
  {
    ExampleFirstLines(x, y, z);
    var l1 := Record(Some([Str(x), Str(y)]), Some([Str("A"), Str("B")]));
    var l2 := Record(Some([Str(z)]), Some([Str("A")]));
    var l3 := Record(Some([]), Some([]));
    AggregateSnoc([l1, l2], l3);
    assert [l1, l2] + [l3] == [l1, l2, l3];
  }
}
