/** The comment re-injection at the end of write_settings_to_file: the
    lines of the YAML dump are walked with a hand-advanced index; before
    every top-level `key:` line a blank line and then the comment block
    recorded for that key are inserted, and the block is deleted from the
    map so that it is used at most once. */
module Reinject {
  import opened Wrappers
  import opened Text
  import opened ForwardComments

  /** The length of the run of non-whitespace characters `line` starts with
      (what the greedy `\S+` can match). */
  function NonSpaceRun(line: string): (n: nat)
    ensures n <= |line|
    ensures forall j :: 0 <= j < n ==> !IsSpace(line[j])
    ensures n < |line| ==> IsSpace(line[n])
  {
    if line != [] && !IsSpace(line[0]) then 1 + NonSpaceRun(line[1..]) else 0
  }

  /** The last ':' before position `j`, not counting position 0. */
  function LastColonBefore(line: string, j: nat): (r: Option<nat>)
    requires j <= |line|
    ensures r.Some? ==>
      && 1 <= r.value < j && line[r.value] == ':'
      && forall m :: r.value < m < j ==> line[m] != ':'
    ensures r.None? ==> forall m :: 1 <= m < j ==> line[m] != ':'
  {
    if j <= 1 then None
    else if line[j - 1] == ':' then Some(j - 1)
    else LastColonBefore(line, j - 1)
  }

  /** re.match('\A(\S+):.*\Z', line).group(1), or None where the match
      fails. Its meaning is stated by TopLevelKeySpec. */
  function TopLevelKey(line: string): Option<string> {
    if '\n' in line then None
    else match LastColonBefore(line, NonSpaceRun(line))
      case None => None
      case Some(k) => Some(line[..k])
  }

  /** The key of a top-level line is the longest non-empty run of
      non-whitespace characters at the start of the line that a ':'
      follows; there is none when the line holds a newline or no ':' after
      its first character and within its leading non-whitespace run. */
  lemma TopLevelKeySpec(line: string)
    ensures TopLevelKey(line).Some? ==>
      var key := TopLevelKey(line).value;
      && '\n' !in line
      && 1 <= |key| < NonSpaceRun(line)
      && key == line[..|key|] && line[|key|] == ':'
      && forall m :: |key| < m < NonSpaceRun(line) ==> line[m] != ':'
    ensures TopLevelKey(line).None? <==>
      '\n' in line || forall m :: 1 <= m < NonSpaceRun(line) ==> line[m] != ':'
  {
  }

  /** The block recorded for `key` among the blocks not yet used, or none. */
  function BlockFor(key: string, comments: Comments): seq<string> {
    if key in comments then comments[key] else []
  }

  /** What the loop leaves in place of one dumped line, given the blocks not
      yet used: a top-level line is preceded by a blank line and its block. */
  function Emit(line: string, comments: Comments): seq<string> {
    match TopLevelKey(line)
    case None => [line]
    case Some(key) => [""] + BlockFor(key, comments) + [line]
  }

  /** The blocks not yet used once `line` is passed: a top-level line uses
      up the block of its key. */
  function Consume(line: string, comments: Comments): Comments {
    match TopLevelKey(line)
    case None => comments
    case Some(key) => comments - {key}
  }

  /** The output for the dumped lines from `k` on, given the blocks not yet
      used. */
  function AnnotateFrom(dumped: seq<string>, k: nat, comments: Comments): seq<string>
    requires k <= |dumped|
    decreases |dumped| - k
  {
    if k == |dumped| then []
    else Emit(dumped[k], comments) + AnnotateFrom(dumped, k + 1, Consume(dumped[k], comments))
  }

  /** The blocks left unused once the dumped lines from `k` on are passed. */
  function UnusedFrom(dumped: seq<string>, k: nat, comments: Comments): Comments
    requires k <= |dumped|
    decreases |dumped| - k
  {
    if k == |dumped| then comments
    else UnusedFrom(dumped, k + 1, Consume(dumped[k], comments))
  }

  function Annotate(dumped: seq<string>, comments: Comments): seq<string> {
    AnnotateFrom(dumped, 0, comments)
  }

  function Unused(dumped: seq<string>, comments: Comments): Comments {
    UnusedFrom(dumped, 0, comments)
  }

  /** list.insert(i, x) */
  function Insert(s: seq<string>, i: nat, x: string): (r: seq<string>)
    requires i <= |s|
    ensures |r| == |s| + 1 && r[i] == x
    ensures forall j :: 0 <= j < i ==> r[j] == s[j]
    ensures forall j :: i < j < |r| ==> r[j] == s[j - 1]
  {
    s[..i] + [x] + s[i..]
  }

  /** Inserting where a sequence was cut in two puts the element between
      the halves. */
  lemma InsertBetween(pre: seq<string>, post: seq<string>, x: string)
    ensures Insert(pre + post, |pre|, x) == pre + [x] + post
  {
    assert (pre + post)[..|pre|] == pre;
    assert (pre + post)[|pre|..] == post;
  }

  /** The inner loop `for comment in comments: settings_list.insert(i,
      comment); i += 1`: the block goes in at `i`, in order, and `i` ends
      past it. */
  method InsertBlock(list0: seq<string>, i0: nat, block: seq<string>) returns (list: seq<string>, i: nat)
    requires i0 <= |list0|
    ensures list == list0[..i0] + block + list0[i0..] && i == i0 + |block|
  {
    list, i := list0, i0;
    for j := 0 to |block|
      invariant list == list0[..i0] + block[..j] + list0[i0..] && i == i0 + j
    {
      InsertBetween(list0[..i0] + block[..j], list0[i0..], block[j]);
      assert block[..j + 1] == block[..j] + [block[j]];
      list := Insert(list, i, block[j]);
      i := i + 1;
    }
    assert block[..|block|] == block;
  }

  /** The `while i < len(settings_list)` loop of write_settings_to_file,
      which inserts into the dumped lines in place and deletes the blocks it
      uses from `param_comments`. */
  method ReinjectComments(dumped: seq<string>, comments0: Comments) returns (list: seq<string>, comments: Comments)
    ensures list == Annotate(dumped, comments0)
    ensures comments == Unused(dumped, comments0)
    ensures comments == comments0 - TopKeys(dumped)
  {
    list := dumped;
    comments := comments0;
    var i := 0;
    ghost var k := 0;  // the dumped line at list[i]
    ghost var done: seq<string> := [];  // the output for dumped[..k]
    assert list == done + dumped[k..];
    assert done + AnnotateFrom(dumped, k, comments) == Annotate(dumped, comments0);
    while i < |list|
      invariant k <= |dumped| && |list| - i == |dumped| - k
      invariant list == done + dumped[k..] && i == |done|
      invariant done + AnnotateFrom(dumped, k, comments) == Annotate(dumped, comments0)
      invariant UnusedFrom(dumped, k, comments) == Unused(dumped, comments0)
      decreases |list| - i
    {
      ghost var line, rest := dumped[k], dumped[k + 1..];
      ghost var unused := comments;
      Uncons(dumped, k, done);
      AnnotateStep(dumped, k, comments, done);
      assert list[i] == line;
      var top := TopLevelKey(list[i]);
      if top.Some? {
        var param := top.value;
        ghost var block := BlockFor(param, comments);
        InsertBetween(done, [line] + rest, "");
        list := Insert(list, i, "");
        i := i + 1;
        if param in comments {
          CutAt(done + [""], [line] + rest);
          list, i := InsertBlock(list, i, comments[param]);
          comments := comments - {param};
        } else {
          RemoveAbsent(comments, param);
        }
        Regroup(done + [""], block, line, rest);
        TopEmit(done, line, unused, param);
        assert list == (done + Emit(line, unused)) + rest;
      } else {
        Regroup(done, [], line, rest);
        PlainEmit(done, line, unused);
        assert list == (done + Emit(line, unused)) + rest;
      }
      done := done + Emit(line, unused);
      i := i + 1;
      k := k + 1;
    }
    Exhausted(dumped, k, done, comments);
    UnusedIsRemaining(dumped, comments0);
  }

  /** One line further into the dumped lines. */
  lemma AnnotateStep(dumped: seq<string>, k: nat, comments: Comments, done: seq<string>)
    requires k < |dumped|
    ensures done + AnnotateFrom(dumped, k, comments)
      == (done + Emit(dumped[k], comments)) + AnnotateFrom(dumped, k + 1, Consume(dumped[k], comments))
    ensures UnusedFrom(dumped, k, comments) == UnusedFrom(dumped, k + 1, Consume(dumped[k], comments))
  {
  }

  lemma TopEmit(done: seq<string>, line: string, comments: Comments, key: string)
    requires TopLevelKey(line) == Some(key)
    ensures done + Emit(line, comments) == done + [""] + BlockFor(key, comments) + [line]
    ensures Consume(line, comments) == comments - {key}
  {
  }

  lemma PlainEmit(done: seq<string>, line: string, comments: Comments)
    requires TopLevelKey(line).None?
    ensures done + Emit(line, comments) == done + [line]
    ensures Consume(line, comments) == comments
  {
  }

  /** The first of the dumped lines still to visit. */
  lemma Uncons(dumped: seq<string>, k: nat, done: seq<string>)
    requires k < |dumped|
    ensures dumped[k..] == [dumped[k]] + dumped[k + 1..]
    ensures (done + dumped[k..])[|done|] == dumped[k]
  {
  }

  /** Past the last dumped line nothing is left to emit or use. */
  lemma Exhausted(dumped: seq<string>, k: nat, done: seq<string>, comments: Comments)
    requires k == |dumped|
    ensures done + dumped[k..] == done
    ensures done + AnnotateFrom(dumped, k, comments) == done
    ensures UnusedFrom(dumped, k, comments) == comments
  {
  }

  lemma Regroup(a: seq<string>, b: seq<string>, line: string, rest: seq<string>)
    ensures a + b + ([line] + rest) == (a + b + [line]) + rest
    ensures b == [] ==> a + b == a
  {
  }

  lemma RemoveAbsent(m: Comments, key: string)
    requires key !in m
    ensures m - {key} == m
  {
  }

  lemma CutAt(a: seq<string>, b: seq<string>)
    ensures (a + b)[..|a|] == a && (a + b)[|a|..] == b
  {
  }

  /** The keys of the top-level lines among `dumped`. */
  function TopKeys(dumped: seq<string>): set<string> {
    set j | 0 <= j < |dumped| && TopLevelKey(dumped[j]).Some? :: TopLevelKey(dumped[j]).value
  }

  /** The output and the unused blocks depend only on the lines still to
      visit. */
  lemma {:induction false} AnnotateFromFrame(l1: seq<string>, k1: nat, l2: seq<string>, k2: nat, comments: Comments)
    requires k1 <= |l1| && k2 <= |l2| && l1[k1..] == l2[k2..]
    ensures AnnotateFrom(l1, k1, comments) == AnnotateFrom(l2, k2, comments)
    ensures UnusedFrom(l1, k1, comments) == UnusedFrom(l2, k2, comments)
    decreases |l1| - k1
  {
    if k1 < |l1| {
      assert l1[k1] == l1[k1..][0] && l2[k2] == l2[k2..][0];
      assert l1[k1 + 1..] == l1[k1..][1..] && l2[k2 + 1..] == l2[k2..][1..];
      AnnotateFromFrame(l1, k1 + 1, l2, k2 + 1, Consume(l1[k1], comments));
    }
  }

  lemma {:induction false} AnnotateFromConcat(a: seq<string>, b: seq<string>, k: nat, comments: Comments)
    requires k <= |a|
    ensures AnnotateFrom(a + b, k, comments)
      == AnnotateFrom(a, k, comments) + Annotate(b, UnusedFrom(a, k, comments))
    ensures UnusedFrom(a + b, k, comments) == Unused(b, UnusedFrom(a, k, comments))
    decreases |a| - k
  {
    if k == |a| {
      assert (a + b)[k..] == b[0..];
      AnnotateFromFrame(a + b, k, b, 0, comments);
    } else {
      assert (a + b)[k] == a[k];
      AnnotateFromConcat(a, b, k + 1, Consume(a[k], comments));
    }
  }

  /** Re-injecting into two stretches of dumped lines in turn: the second
      stretch sees only the blocks the first left unused. */
  lemma AnnotateConcat(a: seq<string>, b: seq<string>, comments: Comments)
    ensures Annotate(a + b, comments) == Annotate(a, comments) + Annotate(b, Unused(a, comments))
    ensures Unused(a + b, comments) == Unused(b, Unused(a, comments))
  {
    AnnotateFromConcat(a, b, 0, comments);
  }

  /** A single dumped line: what Emit leaves in its place, and Consume of
      the blocks. */
  lemma AnnotateOne(line: string, comments: Comments)
    ensures Annotate([line], comments) == Emit(line, comments)
    ensures Unused([line], comments) == Consume(line, comments)
  {
    var rest := Consume(line, comments);
    assert AnnotateFrom([line], 1, rest) == [] && UnusedFrom([line], 1, rest) == rest;
    assert Emit(line, comments) + [] == Emit(line, comments);
  }

  /** Each top-level line is preceded, in the output, by one blank line and
      then the block of its key, if that block is still unused, in its
      stored order; the block is used up for the lines that follow. */
  lemma AnnotateTopLine(before: seq<string>, line: string, after: seq<string>, comments: Comments, key: string)
    requires TopLevelKey(line) == Some(key)
    ensures var unused := Unused(before, comments);
      Annotate(before + [line] + after, comments)
        == Annotate(before, comments) + [""] + BlockFor(key, unused) + [line]
           + Annotate(after, unused - {key})
  {
    var unused := Unused(before, comments);
    AnnotateConcat(before + [line], after, comments);
    AnnotateConcat(before, [line], comments);
    AnnotateOne(line, unused);
  }

  /** Any other dumped line is copied through, with nothing inserted before
      it. */
  lemma AnnotatePlainLine(before: seq<string>, line: string, after: seq<string>, comments: Comments)
    requires TopLevelKey(line).None?
    ensures Annotate(before + [line] + after, comments)
      == Annotate(before, comments) + [line] + Annotate(after, Unused(before, comments))
  {
    var unused := Unused(before, comments);
    AnnotateConcat(before + [line], after, comments);
    AnnotateConcat(before, [line], comments);
    AnnotateOne(line, unused);
  }

  /** The blocks left unused are exactly those whose key has no top-level
      line: each key's block is deleted when its line is met. */
  lemma {:induction false} UnusedIsRemaining(dumped: seq<string>, comments: Comments)
    ensures Unused(dumped, comments) == comments - TopKeys(dumped)
    decreases |dumped|
  {
    if dumped != [] {
      var before, line := dumped[..|dumped| - 1], dumped[|dumped| - 1];
      assert dumped == before + [line];
      UnusedIsRemaining(before, comments);
      AnnotateConcat(before, [line], comments);
      AnnotateOne(line, Unused(before, comments));
      TopKeysSnoc(before, line);
    } else {
      assert comments - {} == comments;
    }
  }

  lemma TopKeysSnoc(before: seq<string>, line: string)
    ensures TopKeys(before + [line]) == TopKeys(before) + match TopLevelKey(line) case None => {} case Some(key) => {key}
  {
    var dumped := before + [line];
    assert forall j :: 0 <= j < |before| ==> dumped[j] == before[j];
    assert dumped[|before|] == line;
  }

  /** A block is inserted at most once: after the top-level line of its key,
      no later line can find it. */
  lemma UsedOnce(before: seq<string>, line: string, comments: Comments, key: string)
    requires TopLevelKey(line) == Some(key)
    ensures key !in Unused(before + [line], comments)
    ensures BlockFor(key, Unused(before + [line], comments)) == []
  {
    UnusedIsRemaining(before + [line], comments);
    TopKeysSnoc(before, line);
  }

  /** Which lines of Emit's output come from the dump (true) and which
      were inserted (false). */
  function EmitOrigin(line: string, comments: Comments): (r: seq<bool>)
    ensures |r| == |Emit(line, comments)|
  {
    match TopLevelKey(line)
    case None => [true]
    case Some(key) => [false] + seq(|BlockFor(key, comments)|, _ => false) + [true]
  }

  function OriginFrom(dumped: seq<string>, k: nat, comments: Comments): (r: seq<bool>)
    requires k <= |dumped|
    ensures |r| == |AnnotateFrom(dumped, k, comments)|
    decreases |dumped| - k
  {
    if k == |dumped| then []
    else EmitOrigin(dumped[k], comments) + OriginFrom(dumped, k + 1, Consume(dumped[k], comments))
  }

  /** The origin of each output line of Annotate. */
  function Origin(dumped: seq<string>, comments: Comments): (r: seq<bool>)
    ensures |r| == |Annotate(dumped, comments)|
  {
    OriginFrom(dumped, 0, comments)
  }

  /** The elements of `xs` whose flag in `keep` is set, in order. */
  function Select(xs: seq<string>, keep: seq<bool>): seq<string>
    requires |xs| == |keep|
  {
    if xs == [] then [] else (if keep[0] then [xs[0]] else []) + Select(xs[1..], keep[1..])
  }

  lemma {:induction false} SelectConcat(x1: seq<string>, k1: seq<bool>, x2: seq<string>, k2: seq<bool>)
    requires |x1| == |k1| && |x2| == |k2|
    ensures Select(x1 + x2, k1 + k2) == Select(x1, k1) + Select(x2, k2)
    decreases |x1|
  {
    if x1 != [] {
      assert (x1 + x2)[1..] == x1[1..] + x2 && (k1 + k2)[1..] == k1[1..] + k2;
      SelectConcat(x1[1..], k1[1..], x2, k2);
    } else {
      assert x1 + x2 == x2 && k1 + k2 == k2;
    }
  }

  lemma {:induction false} SelectNone(xs: seq<string>)
    ensures Select(xs, seq(|xs|, _ => false)) == []
    decreases |xs|
  {
    if xs != [] {
      assert seq(|xs|, _ => false)[1..] == seq(|xs| - 1, _ => false);
      SelectNone(xs[1..]);
    }
  }

  lemma SelectEmit(line: string, comments: Comments)
    ensures Select(Emit(line, comments), EmitOrigin(line, comments)) == [line]
  {
    match TopLevelKey(line)
    case None =>
      assert Select([line], [true]) == [line] + Select([], []);
    case Some(key) =>
      var block := BlockFor(key, comments);
      var none := seq(|block|, _ => false);
      SelectConcat([""] + block, [false] + none, [line], [true]);
      SelectConcat([""], [false], block, none);
      SelectNone(block);
      assert Select([""], [false]) == [] + Select([], []);
      assert Select([line], [true]) == [line] + Select([], []);
  }

  lemma {:induction false} EraseFrom(dumped: seq<string>, k: nat, comments: Comments)
    requires k <= |dumped|
    ensures Select(AnnotateFrom(dumped, k, comments), OriginFrom(dumped, k, comments)) == dumped[k..]
    decreases |dumped| - k
  {
    if k < |dumped| {
      var line := dumped[k];
      var rest := Consume(line, comments);
      EraseFrom(dumped, k + 1, rest);
      SelectConcat(Emit(line, comments), EmitOrigin(line, comments),
        AnnotateFrom(dumped, k + 1, rest), OriginFrom(dumped, k + 1, rest));
      SelectEmit(line, comments);
      assert dumped[k..] == [line] + dumped[k + 1..];
    }
  }

  /** Deleting the inserted lines from the output gives back exactly the
      dumped lines, in order. */
  lemma EraseInserted(dumped: seq<string>, comments: Comments)
    ensures Select(Annotate(dumped, comments), Origin(dumped, comments)) == dumped
  {
    EraseFrom(dumped, 0, comments);
  }

  /** An inserted line: the blank line, or a line of the block of one of
      `keys`. */
  ghost predicate FromBlock(x: string, comments: Comments, keys: set<string>) {
    x == "" || exists key :: key in keys && key in comments && x in comments[key]
  }

  predicate Submap(small: Comments, large: Comments) {
    forall key :: key in small ==> key in large && small[key] == large[key]
  }

  lemma {:induction false} InsertedFrom(dumped: seq<string>, k: nat, unused: Comments, comments: Comments)
    requires k <= |dumped| && Submap(unused, comments)
    ensures forall j :: 0 <= j < |AnnotateFrom(dumped, k, unused)| && !OriginFrom(dumped, k, unused)[j] ==>
      FromBlock(AnnotateFrom(dumped, k, unused)[j], comments, TopKeys(dumped))
    decreases |dumped| - k
  {
    if k < |dumped| {
      var line := dumped[k];
      var rest := Consume(line, unused);
      InsertedFrom(dumped, k + 1, rest, comments);
      var e, eo := Emit(line, unused), EmitOrigin(line, unused);
      var out, origin := AnnotateFrom(dumped, k + 1, rest), OriginFrom(dumped, k + 1, rest);
      assert AnnotateFrom(dumped, k, unused) == e + out;
      assert OriginFrom(dumped, k, unused) == eo + origin;
      forall j | 0 <= j < |e + out| && !(eo + origin)[j]
        ensures FromBlock((e + out)[j], comments, TopKeys(dumped))
      {
        if j >= |e| {
          assert (e + out)[j] == out[j - |e|] && (eo + origin)[j] == origin[j - |e|];
          assert !origin[j - |e|];
          assert FromBlock(out[j - |e|], comments, TopKeys(dumped));
        } else {
          assert (e + out)[j] == e[j] && !eo[j];
          var key := TopLevelKey(line).value;
          var block := BlockFor(key, unused);
          assert e == [""] + block + [line];
          if j > 0 {
            assert key in TopKeys(dumped);
            assert e[j] == block[j - 1] && key in unused;
            assert e[j] in comments[key];
            assert FromBlock(e[j], comments, TopKeys(dumped));
          } else {
            assert e[j] == "";
          }
        }
      }
    }
  }

  /** Every inserted line is the blank line or a line of the block of a key
      that has a top-level line: blocks of other keys are never emitted. */
  lemma InsertedLines(dumped: seq<string>, comments: Comments)
    ensures forall j :: 0 <= j < |Annotate(dumped, comments)| && !Origin(dumped, comments)[j] ==>
      FromBlock(Annotate(dumped, comments)[j], comments, TopKeys(dumped))
  {
    assert Submap(comments, comments);
    InsertedFrom(dumped, 0, comments, comments);
  }

  /** Where the key of a top-level line has no ':' after its first
      character, the forward scan's lazy `(.+?):` finds the same key. */
  lemma KeysAgree(line: string, key: string)
    requires TopLevelKey(line) == Some(key)
    requires forall m :: 1 <= m < |key| ==> key[m] != ':'
    ensures KeyBeforeColon(line) == Some(key)
  {
    TopLevelKeySpec(line);
  }

  /** The blocks as the forward scan records them: non-empty runs of
      stripped comment lines. */
  ghost predicate RecordedBlocks(comments: Comments) {
    forall key :: key in comments ==>
      comments[key] != [] && forall j :: 0 <= j < |comments[key]| ==> IsStrippedComment(comments[key][j])
  }

  /** A dump in which no line is a comment and no top-level key has a ':'
      after its first character. */
  ghost predicate PlainDump(dumped: seq<string>) {
    forall j :: 0 <= j < |dumped| ==>
      && !IsComment(dumped[j])
      && (TopLevelKey(dumped[j]).Some? ==>
            forall m :: 1 <= m < |TopLevelKey(dumped[j]).value| ==> TopLevelKey(dumped[j]).value[m] != ':')
  }

  /** The blocks of `comments` whose key is in `keys`. */
  function Restrict(comments: Comments, keys: set<string>): Comments {
    map key | key in comments && key in keys :: comments[key]
  }

  /** The output ends with the last dumped line. */
  lemma AnnotateLast(dumped: seq<string>, comments: Comments)
    requires dumped != []
    ensures Annotate(dumped, comments) != []
    ensures Annotate(dumped, comments)[|Annotate(dumped, comments)| - 1] == dumped[|dumped| - 1]
  {
    var before, line := dumped[..|dumped| - 1], dumped[|dumped| - 1];
    assert dumped == before + [line];
    AnnotateConcat(before, [line], comments);
    AnnotateOne(line, Unused(before, comments));
  }

  /** The block Emit inserts before `line`, under its key. */
  function EmittedBlock(line: string, comments: Comments): Comments {
    match TopLevelKey(line)
    case Some(key) => if key in comments then map[key := comments[key]] else map[]
    case None => map[]
  }

  /** What the forward scan finds in the output for one dumped line: the
      block inserted before a top-level line, under that line's key. */
  lemma ExtractEmit(line: string, comments: Comments)
    requires !IsComment(line) && RecordedBlocks(comments)
    requires TopLevelKey(line).Some? ==>
      forall m :: 1 <= m < |TopLevelKey(line).value| ==> TopLevelKey(line).value[m] != ':'
    ensures Extract(Emit(line, comments)) == Ok(EmittedBlock(line, comments))
  {
    match TopLevelKey(line)
    case None =>
      SkipLine([line], 0);
    case Some(key) =>
      var block := BlockFor(key, comments);
      TopLevelKeySpec(line);
      assert [""] + block + [line] == [""] + (block + [line]);
      ExtractConcat([""], block + [line]);
      SkipLine([""], 0);
      ThenEmpty(Extract(block + [line]));
      if key in comments {
        KeysAgree(line, key);
        ExtractBlock(block, line, key);
        var r := Extract(block + [line]);
        assert r.value[key] == block;
        assert r.value == map[key := block];
      } else {
        assert block + [line] == [line];
        SkipLine([line], 0);
      }
  }

  /** Comments written by the re-injection are read back by the forward
      scan: when the blocks are ones the scan records and the dump has no
      comment lines and no ':' inside a top-level key, scanning the output
      gives back exactly the blocks of the keys that have a top-level line. */
  lemma {:induction false} ReinjectThenExtract(dumped: seq<string>, comments: Comments)
    requires PlainDump(dumped) && RecordedBlocks(comments)
    ensures Extract(Annotate(dumped, comments)) == Ok(Restrict(comments, TopKeys(dumped)))
    decreases |dumped|
  {
    if dumped == [] {
      assert Restrict(comments, {}) == map[];
    } else {
      var before, line := dumped[..|dumped| - 1], dumped[|dumped| - 1];
      assert dumped == before + [line];
      assert PlainDump(before);
      ReinjectThenExtract(before, comments);
      var unused := Unused(before, comments);
      UnusedIsRemaining(before, comments);
      assert RecordedBlocks(unused);
      AnnotateConcat(before, [line], comments);
      AnnotateOne(line, unused);
      if before != [] {
        AnnotateLast(before, comments);
      }
      ExtractConcat(Annotate(before, comments), Emit(line, unused));
      ExtractEmit(line, unused);
      RestrictStep(comments, before, line);
    }
  }

  /** The blocks read back grow, line by line, by the block emitted. */
  lemma RestrictStep(comments: Comments, before: seq<string>, line: string)
    ensures Restrict(comments, TopKeys(before + [line]))
      == Restrict(comments, TopKeys(before)) + EmittedBlock(line, comments - TopKeys(before))
  {
    TopKeysSnoc(before, line);
    var restricted := Restrict(comments, TopKeys(before));
    match TopLevelKey(line)
    case None =>
      assert restricted + map[] == restricted;
    case Some(key) =>
      RestrictAdd(comments, TopKeys(before), key);
  }

  lemma RestrictAdd(comments: Comments, keys: set<string>, key: string)
    ensures Restrict(comments, keys + {key}) == Restrict(comments, keys)
      + (if key in comments - keys then map[key := (comments - keys)[key]] else map[])
  {
  }

}
