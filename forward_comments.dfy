/** The comment extraction at the start of write_settings_to_file: a forward
    scan over the lines of the old file that records each run of comment
    lines under the key of the line that follows the run. */
module ForwardComments {
  import opened Wrappers
  import opened Text

  /** Key -> the comment lines recorded for it, in file order. */
  type Comments = map<string, seq<string>>

  /** A line the scan treats as a comment: its first character is '#'. */
  predicate IsComment(line: string) {
    |line| > 0 && line[0] == '#'
  }

  /** re.match('(.+?):.*', line).group(1): the text before the first ':'
      that is not the line's first character, when no newline comes before
      that ':'; None where the match fails. */
  function KeyBeforeColon(line: string): (r: Option<string>)
    ensures r.Some? ==>
      && 1 <= |r.value| < |line| && r.value == line[..|r.value|] && line[|r.value|] == ':'
      && (forall i :: 0 <= i < |r.value| ==> line[i] != '\n')
      && (forall i :: 1 <= i < |r.value| ==> line[i] != ':')
    ensures r.None? ==>
      forall k :: 1 <= k < |line| && line[k] == ':' ==> exists i :: 0 <= i < k && line[i] == '\n'
  {
    if |line| == 0 || line[0] == '\n' then None else ColonFrom(line, 1)
  }

  /** The lazy search of KeyBeforeColon, from position `j` on. */
  function ColonFrom(line: string, j: nat): (r: Option<string>)
    requires 1 <= j <= |line|
    requires forall i :: 0 <= i < j ==> line[i] != '\n'
    requires forall i :: 1 <= i < j ==> line[i] != ':'
    ensures r.Some? ==>
      && j <= |r.value| < |line| && r.value == line[..|r.value|] && line[|r.value|] == ':'
      && (forall i :: 0 <= i < |r.value| ==> line[i] != '\n')
      && (forall i :: 1 <= i < |r.value| ==> line[i] != ':')
    ensures r.None? ==>
      forall k :: j <= k < |line| && line[k] == ':' ==> exists i :: j <= i < k && line[i] == '\n'
    decreases |line| - j
  {
    if j == |line| then None
    else if line[j] == ':' then Some(line[..j])
    else if line[j] == '\n' then None
    else ColonFrom(line, j + 1)
  }

  /** The first line at or after `k` that is not a comment, or |lines| when
      the comments run to the end. */
  function RunEnd(lines: seq<string>, k: nat): (e: nat)
    requires k <= |lines|
    ensures k <= e <= |lines|
    ensures forall j :: k <= j < e ==> IsComment(lines[j])
    ensures e < |lines| ==> !IsComment(lines[e])
    decreases |lines| - k
  {
    if k < |lines| && IsComment(lines[k]) then RunEnd(lines, k + 1) else k
  }

  /** RunEnd is pinned down by its contract. */
  lemma {:induction false} RunEndIs(lines: seq<string>, k: nat, e: nat)
    requires k <= e <= |lines|
    requires forall j :: k <= j < e ==> IsComment(lines[j])
    requires e < |lines| ==> !IsComment(lines[e])
    ensures RunEnd(lines, k) == e
    decreases e - k
  {
    if k < e {
      RunEndIs(lines, k + 1, e);
    }
  }

  /** The lines from `a` up to `b`, each `.strip()`-ed. */
  function StripRange(lines: seq<string>, a: nat, b: nat): (r: seq<string>)
    requires a <= b <= |lines|
    ensures |r| == b - a
    decreases b - a
  {
    if a == b then [] else StripRange(lines, a, b - 1) + [Strip(lines[b - 1])]
  }

  /** The j-th line of a stripped range is the stripped line. */
  lemma {:induction false} StripRangeAt(lines: seq<string>, a: nat, b: nat, j: nat)
    requires a <= j < b <= |lines|
    ensures StripRange(lines, a, b)[j - a] == Strip(lines[j])
    decreases b - a
  {
    if j < b - 1 {
      StripRangeAt(lines, a, b - 1, j);
    }
  }

  /** The comments of two consecutive stretches of a file: an error in the
      first stands, then an error in the second; otherwise a block recorded
      in the second replaces one recorded for the same key in the first. */
  function Then(first: Result<Comments, Error>, second: Result<Comments, Error>): Result<Comments, Error> {
    match first
    case Err(e) => Err(e)
    case Ok(m) =>
      match second
      case Err(e) => Err(e)
      case Ok(m') => Ok(m + m')
  }

  lemma ThenAssoc(a: Result<Comments, Error>, b: Result<Comments, Error>, c: Result<Comments, Error>)
    ensures Then(a, Then(b, c)) == Then(Then(a, b), c)
  {
    if a.Ok? && b.Ok? && c.Ok? {
      assert a.value + (b.value + c.value) == (a.value + b.value) + c.value;
    }
  }

  /** The comments of the file from line `k` on, run by run: each maximal
      run of comment lines, stripped, recorded under the key of the line
      after the run. */
  function ExtractFrom(lines: seq<string>, k: nat): Result<Comments, Error>
    requires k <= |lines|
    decreases |lines| - k, 1
  {
    if k == |lines| then Ok(map[])
    else if !IsComment(lines[k]) then ExtractFrom(lines, k + 1)
    else StoreRun(lines, k, RunEnd(lines, k))
  }

  /** The run of comment lines from `k` up to `e`, ended by line `e`: a run
      that ends the file, or is followed by an empty line, raises IndexError
      (`lines[i+1]`, `lines[i+1][0]`); one followed by a line without a key
      raises AttributeError (`.group(1)` of a failed match); otherwise the
      stripped run is recorded under the key and the scan goes on at `e`. */
  function StoreRun(lines: seq<string>, k: nat, e: nat): Result<Comments, Error>
    requires k < e <= |lines|
    decreases |lines| - k, 0
  {
    if e == |lines| || lines[e] == "" then Err(IndexError)
    else match KeyBeforeColon(lines[e])
      case None => Err(AttributeError)
      case Some(key) => Then(Ok(map[key := StripRange(lines, k, e)]), ExtractFrom(lines, e))
  }

  /** The comments of a whole file. */
  function Extract(lines: seq<string>): Result<Comments, Error> {
    ExtractFrom(lines, 0)
  }

  /** The loop `for i in range(len(lines))` of write_settings_to_file:
      comment lines are appended, stripped, to `comment`; when the next line
      is not a comment the run is stored under that line's key. */
  method CollectComments(lines: seq<string>) returns (r: Result<Comments, Error>)
    ensures r == Extract(lines)
  {
    var comment: seq<string> := [];
    var paramComments: Comments := map[];
    ghost var start := 0;  // first line of the pending run
    ghost var goal := Extract(lines);
    ThenEmpty(goal);
    for i := 0 to |lines|
      invariant start <= i
      invariant forall j :: start <= j < i ==> IsComment(lines[j])
      invariant start < i ==> i < |lines| && IsComment(lines[i])
      invariant comment == StripRange(lines, start, i)
      invariant goal == Then(Ok(paramComments), ExtractFrom(lines, start))
    {
      if IsComment(lines[i]) {
        comment := comment + [Strip(lines[i])];
        if i + 1 == |lines| || |lines[i + 1]| == 0 {
          RunClosed(lines, start, i);
          return Err(IndexError);
        }
        if !IsComment(lines[i + 1]) {
          var param := KeyBeforeColon(lines[i + 1]);
          RunClosed(lines, start, i);
          if param.None? {
            return Err(AttributeError);
          }
          ThenStore(paramComments, param.value, comment, ExtractFrom(lines, i + 1));
          paramComments := paramComments[param.value := comment];
          comment := [];
          start := i + 1;
        }
      } else {
        SkipLine(lines, i);
        start := i + 1;
      }
    }
    assert paramComments + map[] == paramComments;
    r := Ok(paramComments);
  }

  /** A line that is not a comment contributes nothing. */
  lemma SkipLine(lines: seq<string>, i: nat)
    requires i < |lines| && !IsComment(lines[i])
    ensures ExtractFrom(lines, i) == ExtractFrom(lines, i + 1)
  {
  }

  /** The scan of a run of comment lines from `start` to `i` that the line
      after `i` ends, case by case. */
  lemma RunClosed(lines: seq<string>, start: nat, i: nat)
    requires start <= i < |lines|
    requires forall j :: start <= j <= i ==> IsComment(lines[j])
    requires i + 1 < |lines| ==> !IsComment(lines[i + 1])
    ensures i + 1 == |lines| || lines[i + 1] == "" ==> ExtractFrom(lines, start) == Err(IndexError)
    ensures i + 1 < |lines| && lines[i + 1] != "" && KeyBeforeColon(lines[i + 1]).None? ==>
      ExtractFrom(lines, start) == Err(AttributeError)
    ensures i + 1 < |lines| && lines[i + 1] != "" && KeyBeforeColon(lines[i + 1]).Some? ==>
      ExtractFrom(lines, start) ==
        Then(Ok(map[KeyBeforeColon(lines[i + 1]).value := StripRange(lines, start, i + 1)]), ExtractFrom(lines, i + 1))
  {
    RunEndIs(lines, start, i + 1);
  }

  lemma ThenEmpty(r: Result<Comments, Error>)
    ensures Then(Ok(map[]), r) == r
  {
    if r.Ok? {
      assert map[] + r.value == r.value;
    }
  }

  lemma ThenStore(acc: Comments, key: string, block: seq<string>, rest: Result<Comments, Error>)
    ensures Then(Ok(acc), Then(Ok(map[key := block]), rest)) == Then(Ok(acc[key := block]), rest)
  {
    ThenAssoc(Ok(acc), Ok(map[key := block]), rest);
    assert acc + map[key := block] == acc[key := block];
  }

  /** StripRange depends only on the lines in its range. */
  lemma {:induction false} StripRangeFrame(l1: seq<string>, a1: nat, b1: nat, l2: seq<string>, a2: nat, b2: nat)
    requires a1 <= b1 <= |l1| && a2 <= b2 <= |l2|
    requires l1[a1..b1] == l2[a2..b2]
    ensures StripRange(l1, a1, b1) == StripRange(l2, a2, b2)
    decreases b1 - a1
  {
    if a1 < b1 {
      assert l1[a1..b1 - 1] == l1[a1..b1][..b1 - 1 - a1];
      assert l2[a2..b2 - 1] == l2[a2..b2][..b2 - 1 - a2];
      assert l1[b1 - 1] == l1[a1..b1][b1 - 1 - a1];
      assert l2[b2 - 1] == l2[a2..b2][b2 - 1 - a2];
      StripRangeFrame(l1, a1, b1 - 1, l2, a2, b2 - 1);
    }
  }

  /** The scan from line `k` on depends only on the lines from `k` on. */
  lemma {:induction false} ExtractFromFrame(l1: seq<string>, k1: nat, l2: seq<string>, k2: nat)
    requires k1 <= |l1| && k2 <= |l2|
    requires l1[k1..] == l2[k2..]
    ensures ExtractFrom(l1, k1) == ExtractFrom(l2, k2)
    decreases |l1| - k1
  {
    if k1 < |l1| {
      assert l1[k1] == l1[k1..][0] == l2[k2];
      assert l1[k1 + 1..] == l1[k1..][1..];
      assert l2[k2 + 1..] == l2[k2..][1..];
      if !IsComment(l1[k1]) {
        ExtractFromFrame(l1, k1 + 1, l2, k2 + 1);
      } else {
        var e1 := RunEnd(l1, k1);
        var e2 := k2 + (e1 - k1);
        forall j | k2 <= j < e2
          ensures IsComment(l2[j])
        {
          assert l2[j] == l2[k2..][j - k2] == l1[j - k2 + k1];
        }
        if e2 < |l2| {
          assert l2[e2] == l2[k2..][e2 - k2] == l1[e1];
        }
        RunEndIs(l2, k2, e2);
        assert l1[k1..e1] == l1[k1..][..e1 - k1];
        assert l2[k2..e2] == l2[k2..][..e2 - k2];
        StripRangeFrame(l1, k1, e1, l2, k2, e2);
        if e1 < |l1| {
          assert l1[e1..] == l1[k1..][e1 - k1..];
          assert l2[e2..] == l2[k2..][e2 - k2..];
          ExtractFromFrame(l1, e1, l2, e2);
        }
      }
    }
  }

  /** Scanning `a + b` from a line of `a` on, where `a` is empty or ends on
      a line that is not a comment, gives the comments of the rest of `a`
      combined by Then with those of `b`. */
  lemma {:induction false} ExtractFromConcat(a: seq<string>, b: seq<string>, k: nat)
    requires k <= |a|
    requires a == [] || !IsComment(a[|a| - 1])
    ensures ExtractFrom(a + b, k) == Then(ExtractFrom(a, k), Extract(b))
    decreases |a| - k
  {
    var ab := a + b;
    if k == |a| {
      assert ab[|a|..] == b[0..];
      ExtractFromFrame(ab, |a|, b, 0);
      ThenEmpty(Extract(b));
    } else if !IsComment(a[k]) {
      ExtractFromConcat(a, b, k + 1);
    } else {
      var e := RunEnd(a, k);
      RunEndIs(ab, k, e);
      assert ab[k..e] == a[k..e];
      StripRangeFrame(ab, k, e, a, k, e);
      if a[e] != "" && KeyBeforeColon(a[e]).Some? {
        ExtractFromConcat(a, b, e);
        ThenAssoc(Ok(map[KeyBeforeColon(a[e]).value := StripRange(a, k, e)]), ExtractFrom(a, e), Extract(b));
      }
    }
  }

  /** Scanning two stretches of a file, the first ending on a line that is
      not a comment, gives their comments combined by Then: a later block
      for a key overwrites an earlier one, and an error in the first
      stretch is the one reported. */
  lemma ExtractConcat(a: seq<string>, b: seq<string>)
    requires a == [] || !IsComment(a[|a| - 1])
    ensures Extract(a + b) == Then(Extract(a), Extract(b))
  {
    ExtractFromConcat(a, b, 0);
  }

  /** One run followed by a key line is recorded, stripped line by line and
      in order, under that line's key, and nothing else is recorded. */
  lemma ExtractBlock(run: seq<string>, line: string, key: string)
    requires run != [] && forall i :: 0 <= i < |run| ==> IsComment(run[i])
    requires line != "" && !IsComment(line) && KeyBeforeColon(line) == Some(key)
    ensures var r := Extract(run + [line]);
      && r.Ok? && r.value.Keys == {key} && |r.value[key]| == |run|
      && forall j :: 0 <= j < |run| ==> r.value[key][j] == Strip(run[j])
  {
    var lines := run + [line];
    var n := |run|;
    RunClosed(lines, 0, n - 1);
    SkipLine(lines, n);
    var block := StripRange(lines, 0, n);
    assert Extract(lines) == Ok(map[key := block]) by {
      assert map[key := block] + map[] == map[key := block];
    }
    forall j | 0 <= j < n
      ensures block[j] == Strip(run[j])
    {
      StripRangeAt(lines, 0, n, j);
    }
  }

  /** A comment on the last line makes the scan fail (lines[i+1] is past
      the end). */
  lemma {:induction false} ExtractFromTrailingComment(lines: seq<string>, k: nat)
    requires k < |lines| && IsComment(lines[|lines| - 1])
    ensures ExtractFrom(lines, k).Err?
    decreases |lines| - k
  {
    if !IsComment(lines[k]) {
      ExtractFromTrailingComment(lines, k + 1);
    } else {
      var e := RunEnd(lines, k);
      if e < |lines| && lines[e] != "" && KeyBeforeColon(lines[e]).Some? {
        ExtractFromTrailingComment(lines, e);
      }
    }
  }

  lemma ExtractTrailingComment(lines: seq<string>)
    requires lines != [] && IsComment(lines[|lines| - 1])
    ensures Extract(lines).Err?
  {
    ExtractFromTrailingComment(lines, 0);
  }

  /** A run followed by a blank line makes the scan fail: the blank line has
      no key, and `.group` is called on a failed match. */
  lemma ExtractBlankAfterComment(run: seq<string>, rest: seq<string>)
    requires run != [] && forall i :: 0 <= i < |run| ==> IsComment(run[i])
    ensures Extract(run + ["\n"] + rest) == Err(AttributeError)
  {
    var lines := run + ["\n"] + rest;
    assert lines[|run|] == "\n";
    RunClosed(lines, 0, |run| - 1);
  }

  /** Stripping a comment line keeps its '#' and strips it for good. */
  lemma StripComment(line: string)
    requires IsComment(line)
    ensures IsComment(Strip(line)) && Strip(Strip(line)) == Strip(line)
  {
    assert !IsSpace('#');
    StripSpec(line);
    StripSpec(Strip(line));
  }

  /** A line as the scan records it: a comment without surrounding
      whitespace. */
  predicate IsStrippedComment(line: string) {
    IsComment(line) && Strip(line) == line
  }

  /** Every recorded block is non-empty, and each of its lines keeps its
      leading '#' and has no surrounding whitespace. */
  lemma {:induction false} ExtractFromBlocks(lines: seq<string>, k: nat)
    requires k <= |lines| && ExtractFrom(lines, k).Ok?
    ensures forall key :: key in ExtractFrom(lines, k).value ==>
      ExtractFrom(lines, k).value[key] != []
      && forall j :: 0 <= j < |ExtractFrom(lines, k).value[key]| ==>
           IsStrippedComment(ExtractFrom(lines, k).value[key][j])
    decreases |lines| - k
  {
    if k < |lines| {
      if !IsComment(lines[k]) {
        ExtractFromBlocks(lines, k + 1);
      } else {
        var e := RunEnd(lines, k);
        ExtractFromBlocks(lines, e);
        StrippedRun(lines, k, e);
      }
    }
  }

  /** A stripped run of comment lines consists of stripped comments. */
  lemma StrippedRun(lines: seq<string>, k: nat, e: nat)
    requires k <= e <= |lines|
    requires forall j :: k <= j < e ==> IsComment(lines[j])
    ensures forall j :: 0 <= j < e - k ==> IsStrippedComment(StripRange(lines, k, e)[j])
  {
    forall j | 0 <= j < e - k
      ensures IsStrippedComment(StripRange(lines, k, e)[j])
    {
      StripRangeAt(lines, k, e, k + j);
      StripComment(lines[k + j]);
    }
  }

  /** Every key recorded is the key of a line that directly follows a
      comment line. */
  lemma {:induction false} ExtractFromKeys(lines: seq<string>, k: nat)
    requires k <= |lines| && ExtractFrom(lines, k).Ok?
    ensures forall key :: key in ExtractFrom(lines, k).value ==>
      exists e :: k < e < |lines| && IsComment(lines[e - 1]) && KeyBeforeColon(lines[e]) == Some(key)
    decreases |lines| - k
  {
    if k < |lines| {
      if !IsComment(lines[k]) {
        ExtractFromKeys(lines, k + 1);
      } else {
        var e := RunEnd(lines, k);
        ExtractFromKeys(lines, e);
      }
    }
  }

  lemma ExtractedBlocksAreComments(lines: seq<string>)
    requires Extract(lines).Ok?
    ensures forall key :: key in Extract(lines).value ==>
      Extract(lines).value[key] != []
      && (forall j :: 0 <= j < |Extract(lines).value[key]| ==> IsStrippedComment(Extract(lines).value[key][j]))
      && exists e :: 0 < e < |lines| && IsComment(lines[e - 1]) && KeyBeforeColon(lines[e]) == Some(key)
  {
    ExtractFromBlocks(lines, 0);
    ExtractFromKeys(lines, 0);
  }

  lemma StripNoteExample()
    ensures Strip("# note\n") == "# note"
  {
    var s := "# note\n";
    assert !IsSpace('#') && !IsSpace('e') && IsSpace('\n');
    assert LeadingSpaces(s) == 0;
    var u := s[..|s| - 1];
    assert u == "# note" && u[|u| - 1] == 'e';
    assert TrailingSpaces(u) == 0;
    assert TrailingSpaces(s) == 1;
  }

  /** The file `a: 1`, `# note`, `b: yes` records ["# note"] under b and
      nothing under a. */
  lemma ExtractExample()
    ensures Extract(["a: 1\n", "# note\n", "b: yes\n"]) == Ok(map["b" := ["# note"]])
  {
    var lines := ["a: 1\n", "# note\n", "b: yes\n"];
    ExampleRun(lines);
    SkipLine(lines, 0);
  }

  /** The run `# note` of the example and the key line after it. */
  lemma ExampleRun(lines: seq<string>)
    requires |lines| == 3 && lines[1] == "# note\n" && lines[2] == "b: yes\n"
    ensures ExtractFrom(lines, 1) == Ok(map["b" := ["# note"]])
  {
    assert !IsComment(lines[2]) && IsComment(lines[1]);
    SkipLine(lines, 2);
    assert StripRange(lines, 1, 2) == ["# note"] by {
      StripNoteExample();
    }
    assert KeyBeforeColon(lines[2]) == Some("b") by {
      assert "b: yes\n"[..1] == "b";
    }
    RunClosed(lines, 1, 1);
    assert map["b" := ["# note"]] + map[] == map["b" := ["# note"]];
  }
}
