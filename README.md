# Zipato extension settings: a Dafny model

This project models the settings helper of the Zipato extension (`src/settings.py`, class
`Settings`). That helper keeps the server's constants in a YAML file named
`zipatoserver.conf`. The model covers the parts of it that compute:

- **Path and file name** (`paths.dfy`). `_format_path` adds or removes a path's trailing
  `/`. `_get_config_file` turns an optional settings directory into the full name of the
  configuration file.
- **Typing of values** (`values.dfy`). `_format_value` decides what each loaded value
  becomes. Keys in the always-slash class get a trailing `/`. Keys in the never-slash class
  lose one. Other values spelt `yes`/`true` or `no`/`false` in any case become booleans. A
  value that `int()` accepts becomes an integer. Anything else is kept. The loop that
  formats every entry of the loaded mapping is a method proved equal to a whole-mapping
  function.
- **Reading comments before a write** (`forward_comments.dfy`). `write_settings_to_file`
  scans the old file from the top. Each run of `#` lines is recorded, line by line and
  stripped, under the key before the first `:` of the line that follows the run. A run
  with no following line, or followed by a line without a key, raises.
- **Writing comments back** (`reinject.dfy`, `writer.dfy`). The YAML dump is split into
  lines. Before each top-level `key:` line the loop inserts a blank line and then the
  recorded block of that key, at most once per key. The lines are joined again. The proofs
  cover these properties:
  - deleting the inserted lines gives the dump back;
  - every inserted line is the blank line or a line of a used block;
  - the blocks left unused are those whose key has no top-level line;
  - scanning the written file again recovers every block whose key is still there. This
    holds when the old file scans without error and the settings format. It also needs a
    dump that starts with a top-level line, has no comment line, and has no `:` inside a
    top-level key after its first character. The written text is read back with
    `split('\n')`.
  - the final `[1:]` drops the first character of the text, which is the inserted blank line
    only when the dump starts with a top-level line; an empty mapping, dumped as `{}`, is
    written as `}`.
- **Reading comments for the web page** (`backward_comments.dfy`). `render_settings_html`
  visits the lines from the last to the first. A `key:` line gives its key an empty comment
  and makes it current. A `#` line is put in front of the current key's comment. The scan
  is a method proved equal to a recursive definition. A second, independent description
  says which comment each key ends with. It also says which files make the scan raise, and
  with which exception.

Python's exceptions are values of the `Error` datatype (`wrappers.dfy`), carried in a
`Result`. The Python string builtins the code relies on are in `text.dfy`: `str.isspace`,
`strip`, `lower`, `int()` on a string, `str()` of an int, `split('\n')` and `'\n'.join`.
Some inputs are parameters rather than modelled code:

- the lines of the configuration file, which the source reads with `readlines`;
- the directory of the program;
- the key order of the loaded mapping;
- the text `yaml.dump` produces.

Where the docstring and the code disagree, the model follows the code. The docstring at
`src/settings.py:31` says never-slash values "will never end with a slash". The code
removes only one trailing `/`, so `x//` becomes `x/`. For the same reason `_format_value`
is idempotent on every value except a never-slash value that ends in `//`.

## Model

| member | source | states |
|---|---|---|
| Paths.FormatPath | src/settings.py:73-89 | The empty path is returned unchanged. With `slash`, the result is the path followed by at most one added `/` and ends in `/`; a path already ending in `/` is unchanged. Without `slash`, a path ending in `/` loses exactly that one character; any other path is unchanged. |
| Paths.FormatPathSlashIdempotent | src/settings.py:85-86 | Enforcing the trailing slash twice gives the same path as enforcing it once. |
| Paths.FormatPathStripsOneSlash | src/settings.py:87-88 | With the slash removed, the result still ends in `/` exactly when the path ended in `//`. |
| Paths.StripDoubleSlashExample | src/settings.py:87-88 | `x//` becomes `x/`, which still ends in a slash. |
| Paths.ConfigFile | src/settings.py:37-52 | The result always ends with `zipatoserver.conf`. A directory ending in `/` is followed directly by the file name. A non-empty directory without one is followed by `/` and the file name. The empty directory gives the bare file name. Without a directory, the program path is prefixed verbatim. |
| Paths.ConfigFileSlashInsensitive | src/settings.py:47-49 | A directory written with or without its trailing `/` names the same file. |
| Values.FormatValue | src/settings.py:92-113 | Under a path key the value is sent to FormatPath with `slash` set by the key's class; a non-string raises TypeError. Under any other key there is no error, and: the result is `True` exactly when the value is spelt `yes`/`true`; it is `False` exactly when spelt `no`/`false`; it is an integer exactly when it is neither and `int()` accepts it, and then it is `int(value)`; otherwise it is the value unchanged. |
| Values.NumbersAreNotWords | src/settings.py:106-111 | The decimal text of an integer is never a boolean word, so an integer is kept as an integer. |
| Values.PathClassesDisjoint | src/settings.py:24-30 | No key is in both path classes, so the order of the first two tests does not matter. |
| Values.PathClassWins | src/settings.py:102-105 | Under a path key a string is formatted as a path even when it reads as a boolean or a number. |
| Values.WithSlashExamples | src/settings.py:102-103 | Under always-slash keys: `yes` becomes `yes/` and `42` becomes `42/`; the empty string is kept; an integer raises TypeError. |
| Values.WithoutSlashExamples | src/settings.py:104-105 | Under never-slash keys: `logs` is kept, `false/` becomes `false`, and the empty string is kept. |
| Values.BooleanWordExamples | src/settings.py:106-109 | `yes`, `TRUE` and `No` become booleans whatever their case. |
| Values.IntegerExample | src/settings.py:110-111 | ` 8080 ` becomes the integer 8080. |
| Values.PlainStringExample | src/settings.py:110-113 | A word that is neither boolean nor numeric is kept. |
| Values.FormatValueIdempotent | src/settings.py:92-113 | Formatting a formatted value gives the same value, unless the key is never-slash and the value ended in `//`. |
| Values.NeverSlashNotIdempotent | src/settings.py:104-105 | That exception is real: `x//` formats to `x/`, and `x/` formats to `x`. |
| Values.FormatAll | src/settings.py:206-207 | The whole mapping raises exactly when some entry cannot be formatted, and then raises TypeError. Otherwise it has the same keys, each holding the formatted value of the old one. |
| Values.FormatSettings | src/settings.py:206-207 | The loop that replaces each entry by its formatted value returns exactly FormatAll of the mapping, including its error. |
| Values.FormatAllIdempotent | src/settings.py:206-207 | Formatting a formatted mapping gives it back, barring never-slash values that end in `//`. |
| Text.StripSpec | src/settings.py:200 | `strip()` returns the slice of the string that starts after its leading whitespace; everything after that slice is whitespace. The result neither starts nor ends with whitespace. It keeps a leading non-space character and leaves a string without surrounding whitespace unchanged. |
| Text.StripSlice | src/settings.py:200 | The result of `strip()` is a slice of the string, starting after the leading whitespace and followed only by whitespace. |
| Text.Strip | src/settings.py:200 | `str.strip()`: its properties are StripSlice and StripSpec. |
| Text.Lower | src/settings.py:106 | `lower()` keeps the length and lowers each character on its own. |
| Text.ParseShowInt | src/settings.py:111 | `int(str(n)) == n` for every integer. |
| Text.ParseInt | src/settings.py:111 | `int()` on a string: the round trip with `str()` is ParseShowInt; under `_format_value` it is used as FormatValue states. |
| Text.JoinSplit | src/settings.py:212 | `'\n'.join(s.split('\n')) == s`. |
| Text.SplitJoin | src/settings.py:230 | Splitting the join of lines that contain no newline gives the lines back. |
| Text.Split | src/settings.py:212 | `split('\n')` yields at least one piece and no piece holds a newline. JoinSplit is its round trip with Join. |
| Text.Join | src/settings.py:230 | `'\n'.join`: SplitJoin and JoinSplit make it the inverse of Split on lines without newlines. |
| ForwardComments.KeyBeforeColon | src/settings.py:202 | A match is the shortest non-empty prefix followed by `:` with no newline in it. When there is no match, every `:` after the first character comes after a newline. |
| ForwardComments.RunEnd | src/settings.py:199-201 | The end of a run of `#` lines: every line before it is a comment, and the line at it is not. |
| ForwardComments.CollectComments | src/settings.py:196-204 | The loop `for i in range(len(lines))` returns exactly Extract of the lines, including its errors. |
| ForwardComments.Extract | src/settings.py:196-204 | The comment blocks of a file, or the exception the loop raises: RunClosed, ExtractConcat, ExtractBlock and ExtractedBlocksAreComments state what it holds. |
| ForwardComments.StoreRun | src/settings.py:201-204 | Closing a run of `#` lines, as RunClosed states. |
| ForwardComments.RunClosed | src/settings.py:199-204 | A run that ends the file, or is followed by an empty line, raises IndexError. One followed by a line without a key raises AttributeError. Otherwise its stripped lines are stored under that line's key. |
| ForwardComments.ExtractConcat | src/settings.py:196-204 | Scanning two stretches of a file, the first not ending in a comment, is scanning each in turn, with the second's blocks overriding. |
| ForwardComments.ExtractBlock | src/settings.py:199-204 | One run followed by a `key:` line records exactly that key, with the run's lines stripped, in order. |
| ForwardComments.ExtractTrailingComment | src/settings.py:201 | A `#` line as the last line makes the scan raise. |
| ForwardComments.ExtractBlankAfterComment | src/settings.py:201-202 | A run followed by a blank line raises AttributeError. |
| ForwardComments.StripComment | src/settings.py:200 | A stripped comment line still starts with `#`, and stripping it again changes nothing. |
| ForwardComments.ExtractedBlocksAreComments | src/settings.py:196-204 | Every recorded line is a stripped comment. Every recorded key is the key of a line directly below a `#` line. |
| ForwardComments.ExtractExample | src/settings.py:196-204 | The file `a: 1`, `# note`, `b: yes` records `["# note"]` under `b`. |
| Reinject.NonSpaceRun | src/settings.py:215 | The run of non-whitespace characters a line starts with. |
| Reinject.LastColonBefore | src/settings.py:215 | The last `:` before a position, not counting position 0. |
| Reinject.TopLevelKeySpec | src/settings.py:215 | The `\A(\S+):.*\Z` match: a key exists only on a line without a newline. The key is the longest non-empty prefix inside the leading non-space run that is followed by `:`. There is no key exactly when that run holds no such `:` or the line has a newline. |
| Reinject.TopLevelKey | src/settings.py:215 | The key of a top-level line, as TopLevelKeySpec characterises it. |
| Reinject.Emit | src/settings.py:215-226 | The lines one dumped line becomes, as AnnotateTopLine, AnnotatePlainLine and ExtractEmit state. |
| Reinject.Annotate | src/settings.py:212-229 | The lines the `while` loop leaves: ReinjectComments computes it, and EraseInserted, InsertedLines, UnusedIsRemaining and ReinjectThenExtract state its properties. |
| Reinject.Insert | src/settings.py:219 | `list.insert(i, x)` puts `x` at `i` and shifts the rest up by one. |
| Reinject.InsertBlock | src/settings.py:224-226 | The inner insertion loop puts the block at `i`, in order, and leaves `i` just past it. |
| Reinject.ReinjectComments | src/settings.py:212-229 | The `while` loop gives exactly Annotate of the dumped lines. It leaves unused exactly the blocks whose key has no top-level line. |
| Reinject.AnnotateConcat | src/settings.py:214-229 | The output for two stretches of the dump is the first's output, then the second's given the blocks the first left. |
| Reinject.AnnotateTopLine | src/settings.py:217-228 | Each top-level line is preceded by one blank line and then by its key's block, if that block is still unused. |
| Reinject.AnnotatePlainLine | src/settings.py:214-229 | Any other line is copied through with nothing before it. |
| Reinject.UnusedIsRemaining | src/settings.py:221-228 | The blocks left unused are exactly those whose key has no top-level line in the dump. |
| Reinject.UsedOnce | src/settings.py:227-228 | After the top-level line of a key its block is gone, so it is never inserted twice. |
| Reinject.EraseInserted | src/settings.py:214-229 | Deleting the inserted lines from the output gives back the dumped lines, in order. |
| Reinject.InsertedLines | src/settings.py:219-226 | Every inserted line is the blank line or a line of the block of a key that has a top-level line. |
| Reinject.KeysAgree | src/settings.py:202 | Where a top-level key has no `:` after its first character, the forward scan's pattern finds the same key. |
| Reinject.AnnotateLast | src/settings.py:214-229 | The output ends with the last dumped line. |
| Reinject.ExtractEmit | src/settings.py:219-226 | Scanning the lines emitted for one dumped line finds just the block inserted before it. |
| Reinject.ReinjectThenExtract | src/settings.py:196-229 | Assume the dump has no comment lines and no top-level key with a `:` after its first character, and the blocks are as the forward scan records them. Then scanning the output recovers exactly the blocks of keys with a top-level line. |
| Writer.RenderAgrees | src/settings.py:230 | When the lines start with the inserted blank line, dropping the first character of the join drops only that line. |
| Writer.RenderAsWritten | src/settings.py:230 | `'\n'.join(settings_list)[1:]`: RenderAgrees, FirstLetterDropped and EmptyMappingWritten state when it drops the blank line and when it drops a letter. |
| Writer.Render | src/settings.py:230 | The corrected join, which drops a leading blank line only; RenderSplit is its round trip with Split. |
| Writer.WriteText | src/settings.py:193-230 | The write succeeds exactly when the old file scans and every value formats. An error of the comment scan comes first; otherwise a value that cannot be formatted raises TypeError. |
| Writer.WriteTextAgrees | src/settings.py:212-230 | When the dump starts with a top-level line, the text as written equals the text with the corrected join. |
| Writer.EmptyMappingWritten | src/settings.py:209-230 | A dump of `{}\n` (an empty mapping) is written as `}\n`; the corrected join writes `{}\n`. |
| Writer.RenderSplit | src/settings.py:230 | The corrected join, split again, gives back every line but a leading blank one. |
| Writer.FirstLetterDropped | src/settings.py:230 | A dump whose first line is not a top-level line (`my key: 1`) loses its first character as written. The corrected join keeps it. |
| Writer.WriteSettingsText | src/settings.py:193-230 | The body of `write_settings_to_file` returns WriteText: the comments are scanned, the values formatted, the dump annotated and joined with the first character dropped, and the first error raised is returned. |
| Writer.AnnotateStartsBlank | src/settings.py:215-220 | A dump starting with a top-level line gets the blank line first, so the as-written join is then correct. |
| Writer.AnnotateNoNewline | src/settings.py:212-226 | No output line holds a newline when no dumped line and no block line does. |
| Writer.WrittenCommentsReadBack | src/settings.py:196-230 | Assume the old file scans without error and the settings format. Assume also that the dump starts with a top-level line (`TopLevelKey(dumped[0]).Some?`), has no comment lines, and has no top-level key with a `:` after its first character. Then the write succeeds. Splitting the written text at `'\n'` and scanning it recovers exactly the old blocks of the keys that have a top-level line in the dump. |
| BackwardComments.LastMatch | src/settings.py:141-146 | The key the inner loop leaves current is a key whose line this is, and no key after it in the key order matches the line. When there is none, no key matches the line. |
| BackwardComments.ScanComments | src/settings.py:134-147 | The loop `for i in range(len(lines)-1, -1, -1)` returns exactly Comments of the lines and keys, including its errors. |
| BackwardComments.Step | src/settings.py:137-146 | One iteration of the outer loop: CommentLineStep, OrphanStep and OtherLineStep describe it. |
| BackwardComments.Comments | src/settings.py:134-147 | The comments the page shows, or the exception raised: CommentsSpec characterises it. |
| BackwardComments.ErrorSticks | src/settings.py:137-140 | An exception raised at any line is the result of the whole scan. |
| BackwardComments.MarkFromSpec | src/settings.py:141-146 | The inner loop from any key on leaves current the last matching key of the rest, if there is one, and resets exactly the matching keys' comments. |
| BackwardComments.MarkFromCursor | src/settings.py:141-146 | The key left current by the inner loop from any key on. |
| BackwardComments.MarkFromComments | src/settings.py:141-146 | The comments left by the inner loop from any key on. |
| BackwardComments.MarkSpec | src/settings.py:141-146 | The inner loop makes the last matching key current, gives each matching key an empty comment, and changes nothing else. |
| BackwardComments.NotBoth | src/settings.py:139-145 | With keys that do not start with `#`, a `#` line is the line of no key. |
| BackwardComments.CommentLineStep | src/settings.py:139-140 | A `#` line with a key line below it puts its stripped text and a space in front of the comment of the key of the first such line. |
| BackwardComments.OrphanStep | src/settings.py:139-140 | A `#` line with no key line below it raises: UnboundLocalError when there are no keys, KeyError otherwise. |
| BackwardComments.OtherLineStep | src/settings.py:141-146 | Any other line empties the comments of the keys whose line it is, and the last of them becomes current. |
| BackwardComments.ScanDescribed | src/settings.py:134-147 | From any line on, the scan raises exactly when a `#` line has no key line below it. Otherwise the current key, the keys with comments and their texts are as the line-by-line description gives them. |
| BackwardComments.CommentsSpec | src/settings.py:134-147 | For keys not starting with `#`: the scan raises exactly when some `#` line has no key line below it, with UnboundLocalError when there are no keys and KeyError otherwise. Otherwise it holds a comment for exactly the keys that have a line in the file. Each comment is the text of the `#` lines between the key's first line and the key line above it, stripped, each followed by a space, in file order. The exception is a line shared by several keys, which leaves only the last of them current; the others keep an empty comment. |
| BackwardComments.TwoBlocks | src/settings.py:134-147 | In a file of two commented keys, each key's comment is the piece of the `#` line above it, also across a blank line. |
| BackwardComments.CommentsExample | src/settings.py:139-146 | `#a` above `k:` gives `k` the comment `a `. |
| BackwardComments.TrailingCommentExample | src/settings.py:139-140 | A `#` line below the last key line raises KeyError. |

## Left out

- File and network I/O are parameters or absent. This covers `open`, `readlines`, writing the `~` file, `os.rename`, `render_template` and the Flask request: the lines read and the text written are values.
- YAML is not parsed or printed. The loaded mapping is a Dafny `map`, its key order is a `seq` parameter, and `yaml.dump` is a function parameter of `Writer.WriteText`.
- `load_settings_from_yaml` is not modelled as a state change. Its `setattr` on the class is the formatting of each entry, which is `Values.FormatAll`. `PROGRAM_PATH` and `os.path.dirname(os.path.abspath(__file__))` become the `programPath` parameter.
- `remove_value_from_file` is not part of this model. It refers to names that are not defined in it (`config_file`, `self`) and writes nothing of its own.
- The stray token `(ya` at `src/settings.py:188` is read as the intended `program_path = (os.path.dirname(...) + '/')`, which is the `programPath` parameter.
- Values.FormatValue: floats are not modelled. A list or mapping under a path key is modelled as TypeError. Python differs for some of them: an empty one is returned unchanged; a list whose last element is `'/'` is kept under an always-slash key and loses that element under a never-slash key; under a never-slash key a non-empty list whose last element is not `'/'` is returned unchanged; and a non-empty mapping raises KeyError at `path[-1]`.
- Text.ParseInt: `int()` is modelled for an optional sign and ASCII digits with surrounding whitespace. Underscores between digits and non-ASCII decimal digits, which Python also accepts, are not modelled.
- Text.Lower: only ASCII letters are lowered. No other character lowers to a letter of `yes`, `true`, `no` or `false`, so the boolean tests decide as Python does.
- Values.FormatSettings: the loop visits keys in an arbitrary order rather than the mapping's insertion order. Every failure is TypeError, so the result does not depend on the order.
- Values.FormatSettings: the model formats a copy and returns it. Python assigns into the caller's `settings_json` (and `constants`) in place, so when an entry raises, the entries visited before it stay formatted in the caller's mapping. That partly formatted state is not modelled.
- BackwardComments.IsLineOf: the key is matched literally. A key holding regex metacharacters is not modelled.
- BackwardComments.CommentsSpec: it is stated for keys that do not start with `#`. For other keys a line could be both a comment and a key line. The scan itself (`ScanComments`, `Comments`) covers all keys.
- Writer.WrittenCommentsReadBack: the written text is read back with `split('\n')` rather than `readlines`, so lines carry no `'\n'`. The comment blocks are stripped either way.
- Reinject.ReinjectThenExtract: it is stated for dumps with no comment lines and with top-level keys that have no `:` after their first character. For other keys the two regexes can read different keys.

## Findings

| source | as written | input that shows it | evidently intended | confidence | as-written member | corrected member |
|---|---|---|---|---|---|---|
| src/settings.py:230 | `'\n'.join(settings_list)[1:]` drops the first character of the text, on the assumption that it is the blank line inserted before the first top-level key | a dump whose first line is not a top-level `key:` line, e.g. `my key: 1` (a key with a space), which the loop leaves unchanged: the text written is `y key: 1\n`; an empty mapping, dumped as `{}`, is written as `}` | drop the leading blank line only when the loop inserted one | not executed | Writer.FirstLetterDropped, Writer.EmptyMappingWritten | Writer.RenderSplit, Writer.WriteTextAgrees |
