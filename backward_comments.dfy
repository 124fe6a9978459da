/** The comment scan of render_settings_html: the lines of the file are
    visited from the last to the first; a `key:` line starts a fresh, empty
    comment for its key and makes it the current one, and each '#' line is
    put, without its '#' and trimmed, in front of the current comment. */
module BackwardComments {
  import opened Wrappers
  import opened Text

  /** The state of the scan: the comment text of each key met so far, and
      the current key (`constant`), if there is one. */
  datatype Scan = Scan(comments: map<string, string>, cursor: Option<string>)

  /** `constant` before the scan: the loop `for constant, value in
      constants.items()` that formats the values leaves it bound to the last
      key, and unbound when there are no keys. */
  function Initial(keys: seq<string>): Option<string> {
    if keys == [] then None else Some(keys[|keys| - 1])
  }

  /** re.match('\A{key}:.*', line), for a key without regex metacharacters. */
  predicate IsLineOf(line: string, key: string) {
    StartsWith(line, key + ":")
  }

  /** re.match('\A#.*', line) */
  predicate IsCommentLine(line: string) {
    StartsWith(line, "#")
  }

  /** No key of `keys` after position `j` has `line` as its line. */
  predicate NoneAfter(line: string, keys: seq<string>, j: nat)
  {
    forall m :: j < m < |keys| ==> !IsLineOf(line, keys[m])
  }

  /** The last of `keys` whose line `line` is: the key the inner loop leaves
      in `constant`. No key after it in `keys` matches the line. */
  function LastMatch(line: string, keys: seq<string>): (r: Option<string>)
    ensures r.Some? ==> r.value in keys && IsLineOf(line, r.value)
    ensures r.Some? ==> exists j :: 0 <= j < |keys| && keys[j] == r.value && NoneAfter(line, keys, j)
    ensures r.None? ==> forall key :: key in keys ==> !IsLineOf(line, key)
  {
    if keys == [] then None
    else if IsLineOf(line, keys[|keys| - 1]) then Some(keys[|keys| - 1])
    else
      var front := keys[..|keys| - 1];
      var r := LastMatch(line, front);
      if r.Some? then
        var j :| 0 <= j < |front| && front[j] == r.value && NoneAfter(line, front, j);
        assert keys[j] == r.value && NoneAfter(line, keys, j);
        r
      else r
  }

  /** The inner loop `for key in constants.keys()` from the `j`-th key on:
      every key whose line this is gets an empty comment and becomes the
      current key. */
  function MarkFrom(line: string, keys: seq<string>, j: nat, st: Scan): Scan
    requires j <= |keys|
    decreases |keys| - j
  {
    if j == |keys| then st
    else if IsLineOf(line, keys[j]) then MarkFrom(line, keys, j + 1, Scan(st.comments[keys[j] := ""], Some(keys[j])))
    else MarkFrom(line, keys, j + 1, st)
  }

  /** One iteration of the outer loop: a '#' line goes in front of the
      current comment, raising UnboundLocalError when there is no current
      key and KeyError when the current key has no comment yet; then the
      keys are matched against the line. */
  function Step(line: string, keys: seq<string>, st: Scan): Result<Scan, Error> {
    if !IsCommentLine(line) then Ok(MarkFrom(line, keys, 0, st))
    else match st.cursor
      case None => Err(UnboundLocalError)
      case Some(key) =>
        if key !in st.comments then Err(KeyError)
        else
          var text := Strip(line[1..]) + " " + st.comments[key];
          Ok(MarkFrom(line, keys, 0, Scan(st.comments[key := text], st.cursor)))
  }

  /** The state once the lines from `i` to the end have been visited, last
      line first. */
  function ScanFrom(lines: seq<string>, keys: seq<string>, i: nat): Result<Scan, Error>
    requires i <= |lines|
    decreases |lines| - i
  {
    if i == |lines| then Ok(Scan(map[], Initial(keys)))
    else match ScanFrom(lines, keys, i + 1)
      case Err(e) => Err(e)
      case Ok(st) => Step(lines[i], keys, st)
  }

  /** The `comments` mapping render_settings_html passes to the template. */
  function Comments(lines: seq<string>, keys: seq<string>): Result<map<string, string>, Error> {
    match ScanFrom(lines, keys, 0)
    case Err(e) => Err(e)
    case Ok(st) => Ok(st.comments)
  }

  /** The loop `for i in range(len(lines)-1, -1, -1)` of
      render_settings_html, over the lines of the file and the keys of the
      loaded mapping in their order. */
  method ScanComments(lines: seq<string>, keys: seq<string>) returns (r: Result<map<string, string>, Error>)
    ensures r == Comments(lines, keys)
  {
    var comments: map<string, string> := map[];
    var constant := Initial(keys);
    var i := |lines|;
    while i > 0
      invariant 0 <= i <= |lines|
      invariant ScanFrom(lines, keys, i) == Ok(Scan(comments, constant))
    {
      i := i - 1;
      ghost var before := Scan(comments, constant);
      if IsCommentLine(lines[i]) {
        if constant.None? {
          ErrorSticks(lines, keys, i);
          return Err(UnboundLocalError);
        }
        if constant.value !in comments {
          ErrorSticks(lines, keys, i);
          return Err(KeyError);
        }
        comments := comments[constant.value := Strip(lines[i][1..]) + " " + comments[constant.value]];
      }
      ghost var marked := Scan(comments, constant);
      for j := 0 to |keys|
        invariant MarkFrom(lines[i], keys, 0, marked) == MarkFrom(lines[i], keys, j, Scan(comments, constant))
      {
        if IsLineOf(lines[i], keys[j]) {
          constant := Some(keys[j]);
          comments := comments[keys[j] := ""];
        }
      }
    }
    r := Ok(comments);
  }

  /** An error raised at one line is the result of the whole scan. */
  lemma {:induction false} ErrorSticks(lines: seq<string>, keys: seq<string>, i: nat)
    requires i < |lines| && ScanFrom(lines, keys, i).Err?
    ensures Comments(lines, keys) == Err(ScanFrom(lines, keys, i).error)
    decreases i
  {
    if i > 0 {
      ErrorSticks(lines, keys, i - 1);
    }
  }

  /** The inner loop from the `j`-th key on, set out: the current key becomes
      the last key whose line this is, if any, and each such key gets an
      empty comment; nothing else changes. */
  lemma MarkFromSpec(line: string, keys: seq<string>, j: nat, st: Scan)
    requires j <= |keys|
    ensures MarkFrom(line, keys, j, st).cursor
      == if LastMatch(line, keys[j..]).Some? then LastMatch(line, keys[j..]) else st.cursor
    ensures forall key :: key in MarkFrom(line, keys, j, st).comments <==>
      key in st.comments || (key in keys[j..] && IsLineOf(line, key))
    ensures forall key :: key in MarkFrom(line, keys, j, st).comments ==>
      MarkFrom(line, keys, j, st).comments[key]
        == if key in keys[j..] && IsLineOf(line, key) then "" else st.comments[key]
  {
    MarkFromCursor(line, keys, j, st);
    MarkFromComments(line, keys, j, st);
  }

  /** The cursor the inner loop leaves: the last matching key, if any. */
  lemma {:induction false} MarkFromCursor(line: string, keys: seq<string>, j: nat, st: Scan)
    requires j <= |keys|
    ensures MarkFrom(line, keys, j, st).cursor
      == if LastMatch(line, keys[j..]).Some? then LastMatch(line, keys[j..]) else st.cursor
    decreases |keys| - j
  {
    if j < |keys| {
      var next := if IsLineOf(line, keys[j]) then Scan(st.comments[keys[j] := ""], Some(keys[j])) else st;
      MarkFromCursor(line, keys, j + 1, next);
      assert keys[j..] == [keys[j]] + keys[j + 1..];
      LastMatchCons(line, keys[j], keys[j + 1..]);
    }
  }

  /** The comments the inner loop leaves: every matching key is reset to
      the empty comment, the others are kept. */
  lemma {:induction false} MarkFromComments(line: string, keys: seq<string>, j: nat, st: Scan)
    requires j <= |keys|
    ensures forall key :: key in MarkFrom(line, keys, j, st).comments <==>
      key in st.comments || (key in keys[j..] && IsLineOf(line, key))
    ensures forall key :: key in MarkFrom(line, keys, j, st).comments ==>
      MarkFrom(line, keys, j, st).comments[key]
        == if key in keys[j..] && IsLineOf(line, key) then "" else st.comments[key]
    decreases |keys| - j
  {
    if j < |keys| {
      var next := if IsLineOf(line, keys[j]) then Scan(st.comments[keys[j] := ""], Some(keys[j])) else st;
      MarkFromComments(line, keys, j + 1, next);
      assert keys[j..] == [keys[j]] + keys[j + 1..];
    }
  }

  lemma {:induction false} LastMatchCons(line: string, key: string, rest: seq<string>)
    ensures LastMatch(line, [key] + rest)
      == if LastMatch(line, rest).Some? then LastMatch(line, rest)
         else if IsLineOf(line, key) then Some(key) else None
    decreases |rest|
  {
    var keys := [key] + rest;
    if rest == [] {
      assert keys[..0] == [];
    } else {
      assert keys[|keys| - 1] == rest[|rest| - 1];
      assert keys[..|keys| - 1] == [key] + rest[..|rest| - 1];
      LastMatchCons(line, key, rest[..|rest| - 1]);
    }
  }

  /** The inner loop over all the keys. */
  lemma MarkSpec(line: string, keys: seq<string>, st: Scan)
    ensures MarkFrom(line, keys, 0, st).cursor
      == if LastMatch(line, keys).Some? then LastMatch(line, keys) else st.cursor
    ensures forall key :: key in MarkFrom(line, keys, 0, st).comments <==>
      key in st.comments || (key in keys && IsLineOf(line, key))
    ensures forall key :: key in MarkFrom(line, keys, 0, st).comments ==>
      MarkFrom(line, keys, 0, st).comments[key]
        == if key in keys && IsLineOf(line, key) then "" else st.comments[key]
  {
    MarkFromSpec(line, keys, 0, st);
    assert keys[0..] == keys;
  }

  /** A line that is the line of one of the keys. */
  predicate IsKeyLine(line: string, keys: seq<string>) {
    LastMatch(line, keys).Some?
  }

  /** The first key line at or after `i`, or |lines| when there is none. */
  function NextKeyLine(lines: seq<string>, keys: seq<string>, i: nat): (q: nat)
    requires i <= |lines|
    ensures i <= q <= |lines|
    ensures forall j :: i <= j < q ==> !IsKeyLine(lines[j], keys)
    ensures q < |lines| ==> IsKeyLine(lines[q], keys)
    decreases |lines| - i
  {
    if i == |lines| || IsKeyLine(lines[i], keys) then i else NextKeyLine(lines, keys, i + 1)
  }

  /** The first line of `key` at or after `i`, or |lines| when there is none. */
  function FirstLineOf(lines: seq<string>, key: string, i: nat): (p: nat)
    requires i <= |lines|
    ensures i <= p <= |lines|
    ensures forall j :: i <= j < p ==> !IsLineOf(lines[j], key)
    ensures p < |lines| ==> IsLineOf(lines[p], key)
    decreases |lines| - i
  {
    if i == |lines| || IsLineOf(lines[i], key) then i else FirstLineOf(lines, key, i + 1)
  }

  /** Where the block above line `p` starts, looking no higher than `i`:
      just below the nearest key line above `p`. */
  function BlockStart(lines: seq<string>, keys: seq<string>, i: nat, p: nat): (b: nat)
    requires i <= p <= |lines|
    ensures i <= b <= p
    ensures forall j :: b <= j < p ==> !IsKeyLine(lines[j], keys)
    ensures b > i ==> IsKeyLine(lines[b - 1], keys)
    decreases p - i
  {
    if p == i then i
    else if IsKeyLine(lines[p - 1], keys) then p
    else BlockStart(lines, keys, i, p - 1)
  }

  /** The text a '#' line adds to a comment: the line without its '#',
      trimmed, and one space. */
  function Piece(line: string): string {
    if IsCommentLine(line) then Strip(line[1..]) + " " else ""
  }

  /** The pieces of the '#' lines from `a` up to `b`, in file order. */
  function CommentText(lines: seq<string>, a: nat, b: nat): string
    requires a <= b <= |lines|
    decreases b - a
  {
    if a == b then "" else Piece(lines[a]) + CommentText(lines, a + 1, b)
  }

  /** The comment of `key` once the lines from `i` on are scanned: the
      pieces of the '#' lines between its first line and the key line above
      it, when that line leaves `key` current; "" when a later key with the
      same line takes over. */
  function Expected(lines: seq<string>, keys: seq<string>, i: nat, key: string): string
    requires i <= |lines|
  {
    var p := FirstLineOf(lines, key, i);
    if p < |lines| && LastMatch(lines[p], keys) == Some(key)
    then CommentText(lines, BlockStart(lines, keys, i, p), p)
    else ""
  }

  /** The current key once the lines from `i` on are visited: the last key
      of the first key line at or after `i`, or the initial one. */
  ghost predicate CursorDescribed(lines: seq<string>, keys: seq<string>, i: nat, cursor: Option<string>)
    requires i <= |lines|
  {
    cursor == if NextKeyLine(lines, keys, i) < |lines|
              then LastMatch(lines[NextKeyLine(lines, keys, i)], keys) else Initial(keys)
  }

  /** The keys with a comment: those with a line at or after `i`. */
  ghost predicate KeysDescribed(lines: seq<string>, keys: seq<string>, i: nat, m: map<string, string>)
    requires i <= |lines|
  {
    forall key :: key in m <==> key in keys && FirstLineOf(lines, key, i) < |lines|
  }

  /** Each comment is the text Expected gives. */
  ghost predicate ValuesDescribed(lines: seq<string>, keys: seq<string>, i: nat, m: map<string, string>)
    requires i <= |lines|
  {
    forall key :: key in m ==> m[key] == Expected(lines, keys, i, key)
  }

  /** The state of the scan once the lines from `i` on are visited, set out
      line by line. */
  ghost predicate Described(lines: seq<string>, keys: seq<string>, i: nat, st: Scan)
    requires i <= |lines|
  {
    && CursorDescribed(lines, keys, i, st.cursor)
    && KeysDescribed(lines, keys, i, st.comments)
    && ValuesDescribed(lines, keys, i, st.comments)
  }

  /** A '#' line with no key line below it. */
  ghost predicate Orphan(lines: seq<string>, keys: seq<string>, i: nat) {
    exists j :: i <= j < |lines| && IsCommentLine(lines[j]) && NextKeyLine(lines, keys, j + 1) == |lines|
  }

  /** Keys that do not start with '#', so that no line is both a comment and
      a key line. */
  predicate PlainKeys(keys: seq<string>) {
    forall j :: 0 <= j < |keys| ==> keys[j] == [] || keys[j][0] != '#'
  }

  /** With plain keys, a '#' line is the line of no key. */
  lemma NotBoth(line: string, keys: seq<string>)
    requires PlainKeys(keys) && IsCommentLine(line)
    ensures forall key :: key in keys ==> !IsLineOf(line, key)
    ensures !IsKeyLine(line, keys)
  {
    forall key | key in keys
      ensures !IsLineOf(line, key)
    {
      var j :| 0 <= j < |keys| && keys[j] == key;
      assert line[..1][0] == line[0];
      assert (key + ":")[0] != '#';
      if |key| + 1 <= |line| {
        assert line[..|key| + 1][0] == line[0];
      }
    }
  }

  /** Moving the upper limit of a block search up by one line. */
  lemma {:induction false} BlockStartStep(lines: seq<string>, keys: seq<string>, i: nat, p: nat)
    requires i < p <= |lines|
    ensures BlockStart(lines, keys, i, p)
      == if NextKeyLine(lines, keys, i + 1) >= p && !IsKeyLine(lines[i], keys) then i
         else BlockStart(lines, keys, i + 1, p)
    decreases p - i
  {
    if p > i + 1 && !IsKeyLine(lines[p - 1], keys) {
      BlockStartStep(lines, keys, i, p - 1);
    }
  }

  /** The line of a key is a key line, so no key line comes first. */
  lemma KeyLineBound(lines: seq<string>, keys: seq<string>, i: nat, key: string)
    requires i <= |lines| && key in keys && FirstLineOf(lines, key, i) < |lines|
    ensures NextKeyLine(lines, keys, i) <= FirstLineOf(lines, key, i)
    ensures IsKeyLine(lines[FirstLineOf(lines, key, i)], keys)
  {
  }

  /** When the first key line below holds a key, that is its first line. */
  lemma FirstLineAtNext(lines: seq<string>, keys: seq<string>, i: nat, key: string)
    requires i <= |lines| && NextKeyLine(lines, keys, i) < |lines|
    requires key in keys && IsLineOf(lines[NextKeyLine(lines, keys, i)], key)
    ensures FirstLineOf(lines, key, i) == NextKeyLine(lines, keys, i)
  {
    KeyLineBound(lines, keys, i, key);
  }

  /** A line that is not a '#' line taken into the block of `key` leaves the
      expected comment of `key` as it was. */
  lemma ExpectedSame(lines: seq<string>, keys: seq<string>, i: nat, key: string)
    requires i < |lines| && !IsLineOf(lines[i], key)
    requires !IsCommentLine(lines[i]) || IsKeyLine(lines[i], keys)
      || NextKeyLine(lines, keys, i + 1) == |lines|
      || LastMatch(lines[NextKeyLine(lines, keys, i + 1)], keys) != Some(key)
    ensures Expected(lines, keys, i, key) == Expected(lines, keys, i + 1, key)
  {
    var p := FirstLineOf(lines, key, i + 1);
    assert FirstLineOf(lines, key, i) == p;
    if p < |lines| && LastMatch(lines[p], keys) == Some(key) {
      var q := NextKeyLine(lines, keys, i + 1);
      assert IsKeyLine(lines[p], keys);
      assert q <= p;
      BlockStartStep(lines, keys, i, p);
      if q == p && !IsKeyLine(lines[i], keys) {
        assert Piece(lines[i]) == "";
        assert BlockStart(lines, keys, i + 1, p) == i + 1;
        assert CommentText(lines, i, p) == CommentText(lines, i + 1, p);
      }
    }
  }

  /** A '#' line just above the block of `key` puts its piece in front. */
  lemma ExpectedOwn(lines: seq<string>, keys: seq<string>, i: nat, key: string)
    requires i < |lines| && !IsKeyLine(lines[i], keys)
    requires NextKeyLine(lines, keys, i + 1) < |lines|
    requires LastMatch(lines[NextKeyLine(lines, keys, i + 1)], keys) == Some(key)
    ensures Expected(lines, keys, i, key) == Piece(lines[i]) + Expected(lines, keys, i + 1, key)
  {
    var q := NextKeyLine(lines, keys, i + 1);
    FirstLineAtNext(lines, keys, i + 1, key);
    assert FirstLineOf(lines, key, i) == q;
    BlockStartStep(lines, keys, i, q);
    assert BlockStart(lines, keys, i + 1, q) == i + 1;
  }

  /** The line of `key` itself: its comment starts empty. */
  lemma ExpectedAtLine(lines: seq<string>, keys: seq<string>, i: nat, key: string)
    requires i < |lines| && IsLineOf(lines[i], key)
    ensures Expected(lines, keys, i, key) == ""
  {
  }

  /** No key line at or after `i`: no key has a line there. */
  lemma NoKeyLine(lines: seq<string>, keys: seq<string>, i: nat, key: string)
    requires i <= |lines| && NextKeyLine(lines, keys, i) == |lines| && key in keys
    ensures FirstLineOf(lines, key, i) == |lines|
  {
  }

  /** The inner loop changes nothing on a line of no key. */
  lemma {:induction false} MarkNone(line: string, keys: seq<string>, j: nat, st: Scan)
    requires j <= |keys| && !IsKeyLine(line, keys)
    ensures MarkFrom(line, keys, j, st) == st
    decreases |keys| - j
  {
    if j < |keys| {
      assert keys[j] in keys;
      MarkNone(line, keys, j + 1, st);
    }
  }

  /** A '#' line with a key line below it: its piece goes in front of the
      comment of the key of the first such line. */
  lemma CommentLineStep(lines: seq<string>, keys: seq<string>, i: nat, st: Scan)
    requires PlainKeys(keys) && i < |lines| && IsCommentLine(lines[i])
    requires NextKeyLine(lines, keys, i + 1) < |lines|
    requires Described(lines, keys, i + 1, st)
    ensures Step(lines[i], keys, st).Ok?
    ensures Described(lines, keys, i, Step(lines[i], keys, st).value)
  {
    var line := lines[i];
    NotBoth(line, keys);
    var q := NextKeyLine(lines, keys, i + 1);
    var key0 := LastMatch(lines[q], keys).value;
    FirstLineAtNext(lines, keys, i + 1, key0);
    assert key0 in st.comments;
    var st1 := Scan(st.comments[key0 := Piece(line) + st.comments[key0]], st.cursor);
    MarkNone(line, keys, 0, st1);
    assert Step(line, keys, st) == Ok(st1);
    assert NextKeyLine(lines, keys, i) == q;
    forall key | key in keys
      ensures FirstLineOf(lines, key, i) == FirstLineOf(lines, key, i + 1)
    {
    }
    forall key | key in st1.comments
      ensures st1.comments[key] == Expected(lines, keys, i, key)
    {
      if key == key0 {
        ExpectedOwn(lines, keys, i, key);
      } else {
        ExpectedSame(lines, keys, i, key);
      }
    }
  }

  /** A '#' line with no key line below it raises: UnboundLocalError when
      there are no keys, KeyError otherwise. */
  lemma OrphanStep(lines: seq<string>, keys: seq<string>, i: nat, st: Scan)
    requires i < |lines| && IsCommentLine(lines[i])
    requires NextKeyLine(lines, keys, i + 1) == |lines|
    requires Described(lines, keys, i + 1, st)
    ensures Step(lines[i], keys, st) == Err(if keys == [] then UnboundLocalError else KeyError)
  {
    if keys != [] {
      NoKeyLine(lines, keys, i + 1, keys[|keys| - 1]);
    }
  }

  /** Any other line: the keys whose line it is get an empty comment, and
      the last of them becomes current. */
  lemma OtherLineStep(lines: seq<string>, keys: seq<string>, i: nat, st: Scan)
    requires i < |lines| && !IsCommentLine(lines[i])
    requires Described(lines, keys, i + 1, st)
    ensures Step(lines[i], keys, st).Ok?
    ensures Described(lines, keys, i, Step(lines[i], keys, st).value)
  {
    var line := lines[i];
    MarkSpec(line, keys, st);
    var st2 := MarkFrom(line, keys, 0, st);
    assert Step(line, keys, st) == Ok(st2);
    assert NextKeyLine(lines, keys, i) == if IsKeyLine(line, keys) then i else NextKeyLine(lines, keys, i + 1);
    forall key
      ensures key in st2.comments <==> key in keys && FirstLineOf(lines, key, i) < |lines|
    {
      assert FirstLineOf(lines, key, i) == if IsLineOf(line, key) then i else FirstLineOf(lines, key, i + 1);
    }
    forall key | key in st2.comments
      ensures st2.comments[key] == Expected(lines, keys, i, key)
    {
      if key in keys && IsLineOf(line, key) {
        ExpectedAtLine(lines, keys, i, key);
      } else {
        ExpectedSame(lines, keys, i, key);
      }
    }
  }

  /** A '#' line with no key line below it, at `i` or further down. */
  lemma OrphanFrom(lines: seq<string>, keys: seq<string>, i: nat)
    requires i < |lines|
    ensures Orphan(lines, keys, i) <==>
      (IsCommentLine(lines[i]) && NextKeyLine(lines, keys, i + 1) == |lines|) || Orphan(lines, keys, i + 1)
  {
    if Orphan(lines, keys, i) {
      var j :| i <= j < |lines| && IsCommentLine(lines[j]) && NextKeyLine(lines, keys, j + 1) == |lines|;
      if j > i {
        assert i + 1 <= j;
      }
    }
    if Orphan(lines, keys, i + 1) {
      var j :| i + 1 <= j < |lines| && IsCommentLine(lines[j]) && NextKeyLine(lines, keys, j + 1) == |lines|;
      assert i <= j;
    }
  }

  /** The whole scan from line `i` on: it raises exactly when some '#' line
      has no key line below it (UnboundLocalError when there are no keys,
      KeyError otherwise); otherwise its state is as Described says. */
  lemma {:induction false} ScanDescribed(lines: seq<string>, keys: seq<string>, i: nat)
    requires PlainKeys(keys) && i <= |lines|
    ensures ScanFrom(lines, keys, i).Err? <==> Orphan(lines, keys, i)
    ensures ScanFrom(lines, keys, i).Err? ==>
      ScanFrom(lines, keys, i).error == if keys == [] then UnboundLocalError else KeyError
    ensures ScanFrom(lines, keys, i).Ok? ==> Described(lines, keys, i, ScanFrom(lines, keys, i).value)
    decreases |lines| - i
  {
    if i < |lines| {
      ScanDescribed(lines, keys, i + 1);
      OrphanFrom(lines, keys, i);
      if ScanFrom(lines, keys, i + 1).Ok? {
        var st := ScanFrom(lines, keys, i + 1).value;
        if !IsCommentLine(lines[i]) {
          OtherLineStep(lines, keys, i, st);
        } else if NextKeyLine(lines, keys, i + 1) < |lines| {
          CommentLineStep(lines, keys, i, st);
        } else {
          OrphanStep(lines, keys, i, st);
        }
      }
    } else {
      assert !Orphan(lines, keys, i);
    }
  }

  /** The first line of a key exists exactly when the key has a line. */
  lemma {:induction false} FirstLineExists(lines: seq<string>, key: string, i: nat)
    requires i <= |lines|
    ensures FirstLineOf(lines, key, i) < |lines| <==> exists p :: i <= p < |lines| && IsLineOf(lines[p], key)
  {
    if exists p :: i <= p < |lines| && IsLineOf(lines[p], key) {
      var p :| i <= p < |lines| && IsLineOf(lines[p], key);
      assert FirstLineOf(lines, key, i) <= p;
    }
  }

  /** The mapping render_settings_html builds: it raises exactly when some
      '#' line has no key line below it, with UnboundLocalError when the
      file has no keys and KeyError otherwise; else it holds a comment for
      every key with a line in the file, and for no other, and each comment
      is the text of the '#' lines above the key's first line, up to the
      key line before it. */
  lemma CommentsSpec(lines: seq<string>, keys: seq<string>)
    requires PlainKeys(keys)
    ensures Comments(lines, keys).Err? <==> Orphan(lines, keys, 0)
    ensures Comments(lines, keys).Err? ==>
      Comments(lines, keys).error == if keys == [] then UnboundLocalError else KeyError
    ensures Comments(lines, keys).Ok? ==> forall key :: key in Comments(lines, keys).value <==>
      key in keys && exists p :: 0 <= p < |lines| && IsLineOf(lines[p], key)
    ensures Comments(lines, keys).Ok? ==> forall key :: key in Comments(lines, keys).value ==>
      Comments(lines, keys).value[key] == Expected(lines, keys, 0, key)
  {
    ScanDescribed(lines, keys, 0);
    forall key {
      FirstLineExists(lines, key, 0);
    }
  }

  /** A line that differs from `key` + ":" at position `k` is not its line. */
  lemma NotLineAt(line: string, key: string, k: nat)
    requires k <= |key| && k < |line| && line[k] != (key + ":")[k]
    ensures !IsLineOf(line, key)
  {
    if |key| + 1 <= |line| {
      assert line[..|key| + 1][k] == line[k];
    }
  }

  /** A '#' line of no key under a current key with a comment: its piece
      goes in front of that comment. */
  lemma CommentStepAt(line: string, keys: seq<string>, st: Scan)
    requires IsCommentLine(line) && !IsKeyLine(line, keys)
    requires st.cursor.Some? && st.cursor.value in st.comments
    ensures Step(line, keys, st)
      == Ok(Scan(st.comments[st.cursor.value := Piece(line) + st.comments[st.cursor.value]], st.cursor))
  {
    MarkNone(line, keys, 0, Scan(st.comments[st.cursor.value := Piece(line) + st.comments[st.cursor.value]], st.cursor));
  }

  /** A line of exactly one key, `key`, that is not a '#' line: `key` gets
      an empty comment and becomes current. */
  lemma KeyStepAt(line: string, keys: seq<string>, st: Scan, key: string)
    requires !IsCommentLine(line) && key in keys && IsLineOf(line, key)
    requires forall k :: k in keys && IsLineOf(line, k) ==> k == key
    ensures Step(line, keys, st) == Ok(Scan(st.comments[key := ""], Some(key)))
  {
    MarkSpec(line, keys, st);
    var m := MarkFrom(line, keys, 0, st).comments;
    assert m == st.comments[key := ""];
  }

  /** The scan of a file of two commented keys, PORT then HOST, with a
      blank line between HOST's comment and its line. */
  lemma TwoBlocks(lines: seq<string>, keys: seq<string>)
    requires keys == ["PORT", "HOST"] && |lines| == 5
    requires IsLineOf(lines[1], "PORT") && !IsLineOf(lines[1], "HOST")
    requires IsLineOf(lines[4], "HOST") && !IsLineOf(lines[4], "PORT")
    requires !IsKeyLine(lines[0], keys) && !IsKeyLine(lines[2], keys) && !IsKeyLine(lines[3], keys)
    requires IsCommentLine(lines[0]) && IsCommentLine(lines[2])
    requires !IsCommentLine(lines[1]) && !IsCommentLine(lines[3]) && !IsCommentLine(lines[4])
    ensures Comments(lines, keys) == Ok(map["PORT" := Piece(lines[0]), "HOST" := Piece(lines[2])])
  {
    var p0, p2 := Piece(lines[0]), Piece(lines[2]);
    var s4 := Scan(map["HOST" := ""], Some("HOST"));
    var s2 := Scan(map["HOST" := p2], Some("HOST"));
    var s1 := Scan(map["HOST" := p2, "PORT" := ""], Some("PORT"));
    var s0 := Scan(map["HOST" := p2, "PORT" := p0], Some("PORT"));
    KeyStepAt(lines[4], keys, Scan(map[], Some("HOST")), "HOST");
    assert ScanFrom(lines, keys, 4) == Ok(s4);
    MarkNone(lines[3], keys, 0, s4);
    assert ScanFrom(lines, keys, 3) == Ok(s4);
    CommentStepAt(lines[2], keys, s4);
    assert p2 + "" == p2 && p0 + "" == p0;
    assert s4.comments["HOST" := p2 + ""] == s2.comments;
    assert ScanFrom(lines, keys, 2) == Ok(s2);
    KeyStepAt(lines[1], keys, s2, "PORT");
    assert ScanFrom(lines, keys, 1) == Ok(s1);
    CommentStepAt(lines[0], keys, s1);
    assert s1.comments["PORT" := p0 + ""] == s0.comments;
    assert ScanFrom(lines, keys, 0) == Ok(s0);
    assert s0.comments == map["PORT" := p0, "HOST" := p2];
  }

  /** A comment directly above its key's line, stripped of its '#' and
      followed by one space. */
  lemma CommentsExample()
    ensures Comments(["#a", "k:"], ["k"]) == Ok(map["k" := "a "])
  {
    var lines := ["#a", "k:"];
    assert lines[0][1..] == "a";
    StripSpec("a");
    assert IsCommentLine(lines[0]) && IsLineOf(lines[1], "k");
    NotLineAt(lines[0], "k", 0);
    var s1 := Scan(map["k" := ""], Some("k"));
    KeyStepAt(lines[1], ["k"], Scan(map[], Some("k")), "k");
    assert ScanFrom(lines, ["k"], 1) == Ok(s1);
    CommentStepAt(lines[0], ["k"], s1);
    assert Piece(lines[0]) + "" == "a ";
    assert map["k" := ""]["k" := "a "] == map["k" := "a "];
    assert ScanFrom(lines, ["k"], 0) == Ok(Scan(map["k" := "a "], Some("k")));
  }

  /** A '#' line below every key line raises KeyError: the current key is
      the last key of the file, which has no comment yet. */
  lemma TrailingCommentExample()
    ensures Comments(["PORT: 8080\n", "# end\n"], ["PORT"]) == Err(KeyError)
  {
    var lines := ["PORT: 8080\n", "# end\n"];
    assert IsCommentLine(lines[1]);
    NotLineAt(lines[1], "PORT", 0);
  }
}
