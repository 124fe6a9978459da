/** The text that write_settings_to_file produces: the comments of the old
    file are collected, the new settings are formatted and dumped, the
    comments are re-injected into the dumped lines, and the lines are joined
    back into one text. */
module Writer {
  import opened Wrappers
  import opened Text
  import opened Values
  import opened ForwardComments
  import opened Reinject

  /** `'\n'.join(settings_list)[1:]`: the first character of the joined
      text is dropped, whatever it is. */
  function RenderAsWritten(list: seq<string>): string {
    var text := Join(list);
    if text == [] then [] else text[1..]
  }

  /** The join without the blank line inserted before the first top-level
      line: only that line is dropped, and only when it is there. */
  function Render(list: seq<string>): string {
    if list != [] && list[0] == "" then Join(list[1..]) else Join(list)
  }

  /** When the lines start with the inserted blank line, dropping the first
      character drops exactly that line, as Render does. */
  lemma RenderAgrees(list: seq<string>)
    requires list != [] && list[0] == ""
    ensures RenderAsWritten(list) == Render(list)
  {
    if |list| > 1 {
      assert Join(list) == "" + "\n" + Join(list[1..]);
    }
  }

  /** Render keeps every line but a leading blank one: read back line by
      line, the text gives the lines that follow it. */
  lemma RenderSplit(list: seq<string>)
    requires forall j :: 0 <= j < |list| ==> '\n' !in list[j]
    requires list != [] && (list[0] == "" ==> |list| > 1)
    ensures Split(Render(list)) == if list[0] == "" then list[1..] else list
  {
    if list[0] == "" {
      SplitJoin(list[1..]);
    } else {
      SplitJoin(list);
    }
  }

  /** A dump whose first line is not a top-level `key:` line (a key
      containing a space, say) gets no blank line in front, and the
      as-written join then drops the key's first letter. */
  lemma FirstLetterDropped(comments: Comments)
    ensures TopLevelKey("my key: 1").None?
    ensures Annotate(["my key: 1", ""], comments) == ["my key: 1", ""]
    ensures RenderAsWritten(["my key: 1", ""]) == "y key: 1\n"
    ensures Render(["my key: 1", ""]) == "my key: 1\n"
  {
    var line := "my key: 1";
    assert NonSpaceRun(line[2..]) == 0;
    assert NonSpaceRun(line[1..]) == 1;
    assert NonSpaceRun(line) == 2;
    assert TopLevelKey(line).None?;
    assert TopLevelKey("").None?;
    AnnotatePlainLine([], line, [""], comments);
    AnnotateOne("", comments);
    assert Join(["my key: 1", ""]) == "my key: 1" + "\n" + "";
  }

  /** The text write_settings_to_file writes, given the lines of the old
      file, the new settings and yaml.dump: the comment scan of the old
      lines and the formatting of the settings raise before anything is
      dumped; otherwise the comments are re-injected into the dumped lines
      and the lines are joined as written, first character dropped. */
  function WriteText(oldLines: seq<string>, settings: map<string, Value>, dump: map<string, Value> -> string): (r: Result<string, Error>)
    ensures r.Ok? <==> Extract(oldLines).Ok? && FormatAll(settings).Ok?
    ensures Extract(oldLines).Err? ==> r == Err(Extract(oldLines).error)
    ensures Extract(oldLines).Ok? && (exists k :: k in settings && FormatValue(k, settings[k]).Err?) ==>
      r == Err(TypeError)
  {
    match Extract(oldLines)
    case Err(e) => Err(e)
    case Ok(comments) =>
      match FormatAll(settings)
      case Err(e) => Err(e)
      case Ok(formatted) => Ok(RenderAsWritten(Annotate(Split(dump(formatted)), comments)))
  }

  /** WriteText with the corrected join, which drops the leading blank line
      only when there is one. */
  function WriteTextCorrected(oldLines: seq<string>, settings: map<string, Value>, dump: map<string, Value> -> string): Result<string, Error> {
    match Extract(oldLines)
    case Err(e) => Err(e)
    case Ok(comments) =>
      match FormatAll(settings)
      case Err(e) => Err(e)
      case Ok(formatted) => Ok(Render(Annotate(Split(dump(formatted)), comments)))
  }

  /** The two writes differ only in the join: they agree whenever the dump
      starts with a top-level line, the case the source was written for. */
  lemma WriteTextAgrees(oldLines: seq<string>, settings: map<string, Value>, dump: map<string, Value> -> string)
    requires FormatAll(settings).Ok?
    requires var dumped := Split(dump(FormatAll(settings).value));
      dumped != [] && TopLevelKey(dumped[0]).Some?
    ensures WriteText(oldLines, settings, dump) == WriteTextCorrected(oldLines, settings, dump)
  {
    if Extract(oldLines).Ok? {
      var dumped := Split(dump(FormatAll(settings).value));
      var out := Annotate(dumped, Extract(oldLines).value);
      AnnotateStartsBlank(dumped, Extract(oldLines).value);
      RenderAgrees(out);
    }
  }

  /** yaml.dump writes an empty mapping as the single line `{}`, which is
      no top-level line: nothing is inserted before it and the as-written join
      writes `}` alone, while the corrected join keeps the line. */
  lemma EmptyMappingWritten(dump: map<string, Value> -> string)
    requires dump(map[]) == "{}\n"
    ensures WriteText([], map[], dump) == Ok("}\n")
    ensures WriteTextCorrected([], map[], dump) == Ok("{}\n")
  {
    assert Extract([]) == Ok(map[]);
    assert FormatAll(map[]) == Ok(map[]);
    assert Split("\n") == ["", ""] by { assert "\n"[1..] == []; }
    assert Split("}\n") == ["}", ""] by {
      assert "}\n"[1..] == "\n";
      assert ['}'] + "" == "}";
    }
    assert Split("{}\n") == ["{}", ""] by {
      assert "{}\n"[1..] == "}\n";
      assert ['{'] + "}" == "{}";
    }
    assert TopLevelKey("{}").None?;
    assert TopLevelKey("").None?;
    AnnotatePlainLine([], "{}", [""], map[]);
    AnnotateOne("", map[]);
    var out := Annotate(["{}", ""], map[]);
    assert out == ["{}", ""];
    assert Join(out) == "{}" + "\n" + "";
    assert RenderAsWritten(out) == "}\n";
    assert Render(out) == "{}\n";
  }

  /** The body of write_settings_to_file between reading the old file and
      writing the new one. */
  method WriteSettingsText(oldLines: seq<string>, settings: map<string, Value>, dump: map<string, Value> -> string)
    returns (r: Result<string, Error>)
    ensures r == WriteText(oldLines, settings, dump)
  {
    var comments := CollectComments(oldLines);
    if comments.Err? {
      return Err(comments.error);
    }
    var formatted := FormatSettings(settings);
    if formatted.Err? {
      return Err(formatted.error);
    }
    var list, unused := ReinjectComments(Split(dump(formatted.value)), comments.value);
    r := Ok(RenderAsWritten(list));
  }

  /** A dump that starts with a top-level line gets the blank line first. */
  lemma AnnotateStartsBlank(dumped: seq<string>, comments: Comments)
    requires dumped != [] && TopLevelKey(dumped[0]).Some?
    ensures |Annotate(dumped, comments)| > 1 && Annotate(dumped, comments)[0] == ""
  {
    assert dumped == [] + [dumped[0]] + dumped[1..];
    AnnotateTopLine([], dumped[0], dumped[1..], comments, TopLevelKey(dumped[0]).value);
  }

  /** No line of the output holds a newline when no dumped line and no
      line of a block does. */
  lemma AnnotateNoNewline(dumped: seq<string>, comments: Comments)
    requires forall j :: 0 <= j < |dumped| ==> '\n' !in dumped[j]
    requires forall key :: key in comments ==> forall j :: 0 <= j < |comments[key]| ==> '\n' !in comments[key][j]
    ensures forall j :: 0 <= j < |Annotate(dumped, comments)| ==> '\n' !in Annotate(dumped, comments)[j]
  {
    var out, origin := Annotate(dumped, comments), Origin(dumped, comments);
    InsertedLines(dumped, comments);
    EraseInserted(dumped, comments);
    forall j | 0 <= j < |out|
      ensures '\n' !in out[j]
    {
      if origin[j] {
        SelectKept(out, origin, j);
      }
    }
  }

  /** A kept element of a selection is one of the selected elements. */
  lemma {:induction false} SelectKept(xs: seq<string>, keep: seq<bool>, j: nat)
    requires |xs| == |keep| && j < |xs| && keep[j]
    ensures xs[j] in Select(xs, keep)
    decreases j
  {
    if j > 0 {
      SelectKept(xs[1..], keep[1..], j - 1);
    }
  }

  /** Comments survive a write: when the old file scans without error, the
      settings format, and the dump starts with a top-level line, has no
      comment line and no ':' inside a top-level key, then scanning the
      written text line by line gives back exactly the old blocks of the
      keys that the dump has a top-level line for. */
  lemma WrittenCommentsReadBack(oldLines: seq<string>, settings: map<string, Value>, dump: map<string, Value> -> string)
    requires Extract(oldLines).Ok? && FormatAll(settings).Ok?
    requires var comments := Extract(oldLines).value;
      forall key :: key in comments ==> forall j :: 0 <= j < |comments[key]| ==> '\n' !in comments[key][j]
    requires var dumped := Split(dump(FormatAll(settings).value));
      PlainDump(dumped) && TopLevelKey(dumped[0]).Some?
    ensures WriteText(oldLines, settings, dump).Ok?
    ensures Extract(Split(WriteText(oldLines, settings, dump).value))
      == Ok(Restrict(Extract(oldLines).value, TopKeys(Split(dump(FormatAll(settings).value)))))
  {
    var comments := Extract(oldLines).value;
    var dumped := Split(dump(FormatAll(settings).value));
    var out := Annotate(dumped, comments);
    ExtractedBlocksAreComments(oldLines);
    ReinjectThenExtract(dumped, comments);
    AnnotateStartsBlank(dumped, comments);
    AnnotateNoNewline(dumped, comments);
    RenderAgrees(out);
    RenderSplit(out);
    assert out == [""] + out[1..];
    ExtractConcat([""], out[1..]);
    SkipLine([""], 0);
    ThenEmpty(Extract(out[1..]));
  }
}
