/** Typing of setting values (Settings._format_value) and the loop that
    formats every entry of a loaded mapping. */
module Values {
  import opened Wrappers
  import opened Text
  import opened Paths

  /** A top-level value of the YAML mapping. Floats are not modelled. */
  datatype Value =
    | Str(s: string)
    | Int(i: int)
    | Bool(b: bool)
    | Null
    | Other  // a nested list or mapping

  /** Keys whose values always end with a slash. */
  const PathWithSlashParameters: seq<string> :=
    ["WEB_API_PATH", "WEB_GUI_PATH", "WAKEONLAN_PATH", "PING_PATH", "SSH_PATH"]

  /** Keys whose values have a trailing slash removed. */
  const PathWithoutSlashParameters: seq<string> :=
    ["MESSAGE_LOG", "ERROR_LOG", "SSH_KEY_FILE"]

  predicate IsPathParameter(param: string) {
    param in PathWithSlashParameters || param in PathWithoutSlashParameters
  }

  /** str(value) for the scalar kinds. A list or mapping has none here: its
      text starts with '[' or '{' and never spells one of the boolean words. */
  function Spelling(v: Value): Option<string> {
    match v
    case Str(s) => Some(s)
    case Int(n) => Some(ShowInt(n))
    case Bool(b) => Some(if b then "True" else "False")
    case Null => Some("None")
    case Other => None
  }

  /** str(value).lower() is 'yes' or 'true'. */
  predicate SpeltTrue(v: Value) {
    Spelling(v).Some? && (Lower(Spelling(v).value) == "yes" || Lower(Spelling(v).value) == "true")
  }

  /** str(value).lower() is 'no' or 'false'. */
  predicate SpeltFalse(v: Value) {
    Spelling(v).Some? && (Lower(Spelling(v).value) == "no" || Lower(Spelling(v).value) == "false")
  }

  /** int(value); None where Python raises TypeError or ValueError. */
  function IntOf(v: Value): Option<int> {
    match v
    case Str(s) => ParseInt(s)
    case Int(n) => Some(n)
    case Bool(b) => Some(if b then 1 else 0)
    case Null => None
    case Other => None
  }

  /** Settings._format_value. Membership in a path class decides first and
      sends the value through FormatPath (len() of a non-string raises
      TypeError); any other key gets the boolean words, then an integer
      parse, and otherwise keeps its value. */
  function FormatValue(param: string, value: Value): (r: Result<Value, Error>)
    ensures r.Err? <==> IsPathParameter(param) && !value.Str?
    ensures r.Err? ==> r.error == TypeError
    ensures r.Ok? && param in PathWithSlashParameters ==>
      r.value.Str? && (value.s == [] ==> r.value.s == [])
      && (value.s != [] ==> EndsWithSlash(r.value.s) && StartsWith(r.value.s, value.s))
    ensures r.Ok? && param !in PathWithSlashParameters && param in PathWithoutSlashParameters ==>
      r.value.Str? && (if EndsWithSlash(value.s) then r.value.s + "/" == value.s else r.value.s == value.s)
    ensures !IsPathParameter(param) ==>
      && r.Ok?
      && (r.value == Bool(true) <==> SpeltTrue(value))
      && (r.value == Bool(false) <==> SpeltFalse(value))
      && (r.value.Int? <==> !SpeltTrue(value) && !SpeltFalse(value) && IntOf(value).Some?)
      && (r.value.Int? ==> r.value.i == IntOf(value).value)
      && (!r.value.Bool? && !r.value.Int? ==> r.value == value)
  {
    if param in PathWithSlashParameters then
      if value.Str? then Ok(Str(FormatPath(value.s, true))) else Err(TypeError)
    else if param in PathWithoutSlashParameters then
      if value.Str? then Ok(Str(FormatPath(value.s, false))) else Err(TypeError)
    else if SpeltTrue(value) then Ok(Bool(true))
    else if SpeltFalse(value) then Ok(Bool(false))
    else match IntOf(value)
      case Some(n) => Ok(Int(n))
      case None => Ok(value)
  }

  /** The decimal text of an integer is never a boolean word. */
  lemma NumbersAreNotWords(n: int)
    ensures !SpeltTrue(Int(n)) && !SpeltFalse(Int(n))
  {
    var t := Lower(ShowInt(n));
    assert t[0] == ShowInt(n)[0];
  }

  /** No key is in both path classes, so the order of the first two checks
      never matters. */
  lemma {:induction false} PathClassesDisjoint()
    ensures forall k :: k in PathWithSlashParameters ==> k !in PathWithoutSlashParameters
  {
    forall k | k in PathWithSlashParameters
      ensures k !in PathWithoutSlashParameters
    {
      assert k[0] in {'W', 'P', 'S'};
      assert k == "SSH_PATH" || k[|k| - 4..] == "PATH";
      assert forall j :: 0 <= j < 3 ==> PathWithoutSlashParameters[j][|PathWithoutSlashParameters[j]| - 4..] != "PATH";
    }
  }

  /** Path classes win over coercion: under a path key every string is a
      path, whatever it looks like. */
  lemma PathClassWins(param: string, s: string)
    ensures param in PathWithSlashParameters ==>
      FormatValue(param, Str(s)) == Ok(Str(FormatPath(s, true)))
    ensures param in PathWithoutSlashParameters ==>
      FormatValue(param, Str(s)) == Ok(Str(FormatPath(s, false)))
  {
    PathClassesDisjoint();
  }

  /** Under a with-slash key a boolean word and a number are paths like any
      other and gain a '/'; the empty path passes through; a value that is
      not a str raises. */
  lemma WithSlashExamples()
    ensures FormatValue("WEB_API_PATH", Str("yes")) == Ok(Str("yes/"))
    ensures FormatValue("SSH_PATH", Str("42")) == Ok(Str("42/"))
    ensures FormatValue("WEB_GUI_PATH", Str("")) == Ok(Str(""))
    ensures FormatValue("WEB_API_PATH", Int(5)) == Err(TypeError)
  {
    var w := PathWithSlashParameters;
    assert w[0] == "WEB_API_PATH" && w[1] == "WEB_GUI_PATH" && w[4] == "SSH_PATH";
    PathClassWins("WEB_API_PATH", "yes");
    PathClassWins("SSH_PATH", "42");
    PathClassWins("WEB_GUI_PATH", "");
    assert FormatPath("yes", true) == "yes/";
    assert FormatPath("42", true) == "42/";
  }

  /** Under a never-slash key one trailing '/' is dropped, and a boolean
      word stays a str. */
  lemma WithoutSlashExamples()
    ensures FormatValue("MESSAGE_LOG", Str("logs")) == Ok(Str("logs"))
    ensures FormatValue("ERROR_LOG", Str("false/")) == Ok(Str("false"))
    ensures FormatValue("MESSAGE_LOG", Str("")) == Ok(Str(""))
  {
    var m := PathWithoutSlashParameters;
    assert m[0] == "MESSAGE_LOG" && m[1] == "ERROR_LOG";
    PathClassWins("MESSAGE_LOG", "logs");
    PathClassWins("ERROR_LOG", "false/");
    PathClassWins("MESSAGE_LOG", "");
    assert FormatPath("false/", false) == "false";
  }

  /** The keys of the examples below are in neither path class, so their
      values are never sent to FormatPath. */
  lemma ExampleKeysArePlain()
    ensures !IsPathParameter("DEBUG") && !IsPathParameter("PORT") && !IsPathParameter("HOST")
  {
    forall i | 0 <= i < |PathWithSlashParameters|
      ensures |PathWithSlashParameters[i]| >= 7
    {
    }
    forall i | 0 <= i < |PathWithoutSlashParameters|
      ensures |PathWithoutSlashParameters[i]| >= 7
    {
    }
  }

  /** The boolean words are recognised in any case. */
  lemma BooleanWordExamples()
    ensures FormatValue("DEBUG", Str("yes")) == Ok(Bool(true))
    ensures FormatValue("DEBUG", Str("TRUE")) == Ok(Bool(true))
    ensures FormatValue("DEBUG", Str("No")) == Ok(Bool(false))
  {
    ExampleKeysArePlain();
    assert Lower("yes") == "yes";
    assert Lower("TRUE") == "true";
    assert Lower("No") == "no";
  }

  lemma StripNumberExample()
    ensures Strip(" 8080 ") == "8080"
  {
    var s := " 8080 ";
    assert IsSpace(' ') && !IsSpace('8') && !IsSpace('0');
    assert LeadingSpaces(s[1..]) == 0;
    var t := s[1..];
    assert t == "8080 ";
    assert TrailingSpaces(t[..4]) == 0;
    assert t[..4] == "8080";
  }

  lemma DigitsExample()
    ensures AllDigits("8080") && DigitsValue("8080") == 8080
  {
    assert "8080"[..3] == "808" && "808"[..2] == "80" && "80"[..1] == "8" && "8"[..0] == "";
  }

  lemma ParseNumberExample()
    ensures ParseInt(" 8080 ") == Some(8080)
  {
    var t := Strip(" 8080 ");
    assert t == "8080" by { StripNumberExample(); }
    assert t[0] == '8';
    DigitsExample();
  }

  lemma NoNumberExample()
    ensures ParseInt("zipato") == None
  {
    var z := "zipato";
    assert z[0] == 'z' && z[|z| - 1] == 'o';
    assert !IsSpace('z') && !IsSpace('o');
    StripSpec(z);
    assert !IsDigit(z[0]);
  }

  /** A number with surrounding blanks becomes an int. */
  lemma IntegerExample()
    ensures FormatValue("PORT", Str(" 8080 ")) == Ok(Int(8080))
  {
    var v := Str(" 8080 ");
    assert !IsPathParameter("PORT") by { ExampleKeysArePlain(); }
    assert !SpeltTrue(v) && !SpeltFalse(v) by { assert |Lower(" 8080 ")| == 6; }
    assert IntOf(v) == Some(8080) by { ParseNumberExample(); }
  }

  /** A word that is neither boolean nor numeric keeps its value. */
  lemma PlainStringExample()
    ensures FormatValue("HOST", Str("zipato")) == Ok(Str("zipato"))
  {
    var v := Str("zipato");
    assert !IsPathParameter("HOST") by { ExampleKeysArePlain(); }
    assert !SpeltTrue(v) && !SpeltFalse(v) by { assert |Lower("zipato")| == 6; }
    assert IntOf(v) == None by { NoNumberExample(); }
  }

  /** Formatting a formatted value changes nothing, except under a
      never-slash key whose value ended in "//", which loses one more '/'
      each time. */
  lemma {:induction false} FormatValueIdempotent(param: string, value: Value)
    requires FormatValue(param, value).Ok?
    requires param in PathWithoutSlashParameters && param !in PathWithSlashParameters ==>
      !(|value.s| >= 2 && value.s[|value.s| - 2..] == "//")
    ensures FormatValue(param, FormatValue(param, value).value) == FormatValue(param, value)
  {
    var w := FormatValue(param, value).value;
    if param in PathWithSlashParameters {
      FormatPathSlashIdempotent(value.s);
    } else if param in PathWithoutSlashParameters {
      FormatPathStripsOneSlash(value.s);
    } else if w.Int? {
      NumbersAreNotWords(w.i);
    }
  }

  /** The exception to idempotence, on a concrete value. */
  lemma NeverSlashNotIdempotent()
    ensures FormatValue("MESSAGE_LOG", Str("x//")) == Ok(Str("x/"))
    ensures FormatValue("MESSAGE_LOG", Str("x/")) == Ok(Str("x"))
  {
    assert PathWithoutSlashParameters[0] == "MESSAGE_LOG";
    PathClassWins("MESSAGE_LOG", "x//");
    PathClassWins("MESSAGE_LOG", "x/");
    assert FormatPath("x//", false) == "x/";
    assert FormatPath("x/", false) == "x";
  }

  /** Every entry of a mapping formatted under its own key; TypeError if
      some entry cannot be. */
  function FormatAll(settings: map<string, Value>): (r: Result<map<string, Value>, Error>)
    ensures r.Err? <==> exists k :: k in settings && FormatValue(k, settings[k]).Err?
    ensures r.Err? ==> r.error == TypeError
    ensures r.Ok? ==> r.value.Keys == settings.Keys
    ensures r.Ok? ==> forall k :: k in settings ==> FormatValue(k, settings[k]) == Ok(r.value[k])
  {
    if exists k :: k in settings && FormatValue(k, settings[k]).Err? then Err(TypeError)
    else Ok(map k | k in settings :: FormatValue(k, settings[k]).value)
  }

  /** The loops `for constant, value in constants.items(): ... =
      _format_value(constant, value)` in load_settings_from_yaml,
      render_settings_html and write_settings_to_file: each entry is
      replaced by its formatted value; the first entry that cannot be
      formatted raises. The loop works on a copy of the mapping. */
  method FormatSettings(settings: map<string, Value>) returns (r: Result<map<string, Value>, Error>)
    ensures r == FormatAll(settings)
  {
    var formatted := settings;
    var todo := settings.Keys;
    while todo != {}
      invariant todo <= settings.Keys && formatted.Keys == settings.Keys
      invariant forall k :: k in todo ==> formatted[k] == settings[k]
      invariant forall k :: k in settings && k !in todo ==> FormatValue(k, settings[k]) == Ok(formatted[k])
      decreases todo
    {
      var k :| k in todo;
      var f := FormatValue(k, formatted[k]);
      if f.Err? {
        FormatAllErr(settings, k);
        return Err(f.error);
      }
      formatted := formatted[k := f.value];
      todo := todo - {k};
    }
    FormatAllOk(settings, formatted);
    r := Ok(formatted);
  }

  /** One entry that cannot be formatted makes the whole mapping fail. */
  lemma FormatAllErr(settings: map<string, Value>, k: string)
    requires k in settings && FormatValue(k, settings[k]).Err?
    ensures FormatAll(settings) == Err(FormatValue(k, settings[k]).error)
  {
  }

  /** A mapping holding the formatted value of every entry is the result. */
  lemma FormatAllOk(settings: map<string, Value>, formatted: map<string, Value>)
    requires formatted.Keys == settings.Keys
    requires forall k :: k in settings ==> FormatValue(k, settings[k]) == Ok(formatted[k])
    ensures FormatAll(settings) == Ok(formatted)
  {
    assert formatted == map k | k in settings :: FormatValue(k, settings[k]).value;
  }

  /** Loading what was written loads the same values: formatting a formatted
      mapping gives it back, barring never-slash values that ended in "//". */
  lemma {:induction false} FormatAllIdempotent(settings: map<string, Value>)
    requires FormatAll(settings).Ok?
    requires forall k :: k in settings && k in PathWithoutSlashParameters && settings[k].Str? ==>
      !(|settings[k].s| >= 2 && settings[k].s[|settings[k].s| - 2..] == "//")
    ensures FormatAll(FormatAll(settings).value) == FormatAll(settings)
  {
    var m := FormatAll(settings).value;
    forall k | k in m
      ensures FormatValue(k, m[k]) == Ok(m[k])
    {
      FormatValueIdempotent(k, settings[k]);
    }
    assert m == map k | k in m :: FormatValue(k, m[k]).value;
  }
}
