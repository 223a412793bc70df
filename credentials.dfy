/** The saved service-account key location (`DesktopCredentialsRepository`):
    the small JSON file that records the key file's path, the hand-written
    reader for it, and the checks made before a selected key is saved.
    Reading and writing files are parameters and fields; the model keeps
    the text the config file holds. */
module Credentials {
  import opened Wrappers
  import opened Text

  /** `"credentialPath"`, quotes included. */
  const KEY: string := "\"credentialPath\""
  /** `toJson`'s opening brace and indentation. */
  const INDENT: string := "{\n  "
  /** What follows the key: the colon, a space and the opening quote. */
  const COLON: string := ": \""
  /** What `toJson` writes before the escaped path. */
  const JSON_HEAD: string := INDENT + KEY + COLON
  /** What `toJson` writes after the escaped path. */
  const JSON_TAIL: string := "\"\n}\n"

  const NOT_FOUND: string := "선택한 파일을 찾을 수 없어요. 파일이 이동/삭제되지 않았는지 확인해 주세요."
  const NOT_A_FILE: string := "폴더가 아닌 JSON 파일을 선택해 주세요."
  const UNREADABLE: string := "선택한 파일을 읽을 수 없어요. 권한을 확인해 주세요."
  const NOT_JSON: string := "선택한 파일이 JSON 형식이 아닌 것 같아요. 서비스 계정 키(JSON)를 선택해 주세요."
  const NO_APP_DIR: string := "설정 저장 폴더를 만들 수 없어요: "

  datatype CredentialsStatus = NotSaved | Saved(credentialPath: string)

  // ------------------------------------------------------------- writing

  /** `escapeJson`: backslashes doubled first, then each `"` written `\"`. */
  function EscapeJson(value: string): (r: string)
    ensures '\\' !in value && '"' !in value ==> r == value
    ensures '"' !in value ==> '"' !in r
  {
    var once := ReplaceChar(value, '\\', "\\\\");
    assert '"' !in value ==> '"' !in once && ReplaceChar(once, '"', "\\\"") == once by {
      if '"' !in value {
        assert '"' !in "\\\\";
        ReplaceCharKeepsOut(value, '\\', "\\\\", '"');
        ReplaceCharAbsent(once, '"', "\\\"");
      }
    }
    assert '\\' !in value ==> once == value by {
      if '\\' !in value {
        ReplaceCharAbsent(value, '\\', "\\\\");
      }
    }
    ReplaceChar(once, '"', "\\\"")
  }

  /** How one character is escaped. */
  function EscapeChar(x: char): string {
    if x == '\\' || x == '"' then ['\\', x] else [x]
  }

  /** Replacing in a text that starts with `x`: `x`'s replacement, then
      the rest replaced. */
  lemma ReplaceCharCons(x: char, b: string, c: char, rep: string)
    ensures ReplaceChar([x] + b, c, rep) == (if x == c then rep else [x]) + ReplaceChar(b, c, rep)
  {
    assert ([x] + b)[0] == x && ([x] + b)[1..] == b;
  }

  /** A backslash is doubled, the rest escaped after it. */
  lemma EscapeJsonBackslash(t: string)
    ensures EscapeJson(['\\'] + t) == ['\\', '\\'] + EscapeJson(t)
  {
    var once := ReplaceChar(t, '\\', "\\\\");
    ReplaceCharCons('\\', t, '\\', "\\\\");
    assert ReplaceChar(['\\'] + t, '\\', "\\\\") == ['\\'] + (['\\'] + once);
    ReplaceCharCons('\\', ['\\'] + once, '"', "\\\"");
    ReplaceCharCons('\\', once, '"', "\\\"");
  }

  /** Any other character is escaped by the second replacement alone. */
  lemma EscapeJsonOther(x: char, t: string)
    requires x != '\\'
    ensures EscapeJson([x] + t) == (if x == '"' then "\\\"" else [x]) + EscapeJson(t)
  {
    var once := ReplaceChar(t, '\\', "\\\\");
    ReplaceCharCons(x, t, '\\', "\\\\");
    ReplaceCharCons(x, once, '"', "\\\"");
  }

  /** Escaping works character by character: escaping `x` then the rest. */
  lemma EscapeJsonCons(x: char, t: string)
    ensures EscapeJson([x] + t) == EscapeChar(x) + EscapeJson(t)
  {
    if x == '\\' {
      EscapeJsonBackslash(t);
    } else {
      EscapeJsonOther(x, t);
    }
  }

  /** `toJson`: the one-key object, two-space indented, newline-terminated. */
  function ToJson(path: string): (r: string)
    ensures r == JSON_HEAD + EscapeJson(path) + JSON_TAIL
  {
    JSON_HEAD + EscapeJson(path) + JSON_TAIL
  }

  // ------------------------------------------------------------- reading

  /** Kotlin `indexOf(c, startIndex)` for a character. */
  function NextChar(s: string, c: char, from: nat): (r: Option<nat>)
    ensures r.Some? ==> from <= r.value < |s| && s[r.value] == c && forall k :: from <= k < r.value ==> s[k] != c
    ensures r.None? ==> forall k :: from <= k < |s| ==> s[k] != c
  {
    var r := IndexOfFrom(s, [c], from);
    if r.Some? then
      assert s[r.value..r.value + 1][0] == s[r.value];
      assert forall k :: from <= k < r.value ==> s[k] != c by {
        forall k | from <= k < r.value ensures s[k] != c {
          assert !MatchAt(s, [c], k);
          assert s[k..k + 1][0] == s[k];
        }
      }
      r
    else
      assert forall k :: from <= k < |s| ==> s[k] != c by {
        forall k | from <= k < |s| ensures s[k] != c {
          assert !MatchAt(s, [c], k);
          assert s[k..k + 1][0] == s[k];
        }
      }
      r
  }

  /** The index just after the opening quote of the path's value: after
      the key, its colon and the next `"`. */
  function ValueStart(json: string): (r: Option<nat>)
    ensures r.Some? ==> 1 <= r.value <= |json| && json[r.value - 1] == '"'
    ensures IndexOf(json, KEY).None? ==> r.None?
  {
    match IndexOf(json, KEY)
    case None => None
    case Some(keyIndex) =>
      match NextChar(json, ':', keyIndex)
      case None => None
      case Some(colon) =>
        match NextChar(json, '"', colon + 1)
        case None => None
        case Some(firstQuote) => Some(firstQuote + 1)
  }

  /** `parseCredentialPathOrNull`, as written: the text from after the
      first `"` following the key's colon up to the next `"`, with no
      unescaping; null when the key, the colon or either quote is
      missing. */
  function ParseCredentialPathOrNull(json: string): (r: Option<string>)
    ensures ValueStart(json).None? ==> r.None?
    ensures r.Some? ==> '"' !in r.value
    ensures r.Some? ==> var start := ValueStart(json).value;
      start + |r.value| < |json| && json[start..start + |r.value|] == r.value && json[start + |r.value|] == '"'
  {
    match ValueStart(json)
    case None => None
    case Some(start) =>
      match NextChar(json, '"', start)
      case None => None
      case Some(secondQuote) => Some(json[start..secondQuote])
  }

  function Prepend(x: char, r: Option<string>): Option<string> {
    match r
    case Some(s) => Some([x] + s)
    case None => None
  }

  /** A JSON string body read from index `i` up to its closing quote, with
      `\x` read as `x`: the inverse of `escapeJson`. */
  function ReadString(json: string, i: nat): Option<string>
    decreases |json| - i
  {
    if i >= |json| then None
    else if json[i] == '"' then Some([])
    else if json[i] == '\\' then
      if i + 1 >= |json| then None else Prepend(json[i + 1], ReadString(json, i + 2))
    else Prepend(json[i], ReadString(json, i + 1))
  }

  /** `parseCredentialPathOrNull` as evidently intended: the same search
      for the value, whose body is then unescaped. */
  function ParseCredentialPath(json: string): (r: Option<string>)
    ensures ValueStart(json).None? ==> r.None?
    ensures ValueStart(json).Some? ==> r == ReadString(json, ValueStart(json).value)
  {
    match ValueStart(json)
    case None => None
    case Some(start) => ReadString(json, start)
  }

  /** Without backslashes there is nothing to unescape: reading stops at
      the next quote. */
  lemma {:induction false} ReadStringPlain(json: string, i: nat, q: nat)
    requires i <= q < |json| && json[q] == '"'
    requires forall k :: i <= k < q ==> json[k] != '"' && json[k] != '\\'
    decreases q - i
    ensures ReadString(json, i) == Some(json[i..q])
  {
    if i < q {
      ReadStringPlain(json, i + 1, q);
      assert json[i..q] == [json[i]] + json[i + 1..q];
    }
  }

  /** Without backslashes or a quote, reading finds no closing quote. */
  lemma {:induction false} ReadStringUnclosed(json: string, i: nat)
    requires forall k :: i <= k < |json| ==> json[k] != '"' && json[k] != '\\'
    decreases |json| - i
    ensures ReadString(json, i).None?
  {
    if i < |json| {
      ReadStringUnclosed(json, i + 1);
    }
  }

  /** On text without backslashes the unescaping reader and the reader as
      written agree. */
  lemma ParsersAgreeWithoutBackslash(json: string)
    requires '\\' !in json
    ensures ParseCredentialPath(json) == ParseCredentialPathOrNull(json)
  {
    if ValueStart(json).Some? {
      var start := ValueStart(json).value;
      match NextChar(json, '"', start)
      case Some(q) => ReadStringPlain(json, start, q);
      case None => ReadStringUnclosed(json, start);
    }
  }

  /** `escapeJson` character by character. */
  function EscapeChars(p: string): string
    decreases |p|
  {
    if p == [] then [] else EscapeChar(p[0]) + EscapeChars(p[1..])
  }

  lemma {:induction false} EscapeJsonChars(p: string)
    decreases |p|
    ensures EscapeJson(p) == EscapeChars(p)
  {
    if p == [] {
      assert EscapeJson(p) == [];
    } else {
      assert p == [p[0]] + p[1..];
      EscapeJsonCons(p[0], p[1..]);
      EscapeJsonChars(p[1..]);
    }
  }

  /** One escaped character is read back as the character. */
  lemma ReadStep(json: string, i: nat, x: char, t: string)
    requires i + |EscapeChar(x)| <= |json| && json[i..i + |EscapeChar(x)|] == EscapeChar(x)
    requires ReadString(json, i + |EscapeChar(x)|) == Some(t)
    ensures ReadString(json, i) == Some([x] + t)
  {
    assert json[i] == json[i..i + |EscapeChar(x)|][0];
    if x == '\\' || x == '"' {
      assert json[i + 1] == json[i..i + 2][1];
    }
  }

  /** The two halves of a slice that spells `u + v`. */
  lemma SliceHalves(s: string, i: nat, u: string, v: string)
    requires i + |u| + |v| <= |s| && s[i..i + |u| + |v|] == u + v
    ensures s[i..i + |u|] == u && s[i + |u|..i + |u| + |v|] == v
  {
    assert s[i..i + |u|] == s[i..i + |u| + |v|][..|u|];
    assert s[i + |u|..i + |u| + |v|] == s[i..i + |u| + |v|][|u|..];
  }

  /** `json` holds `p` escaped from index `i`, then a quote. */
  predicate EscapedAt(json: string, i: nat, p: string) {
    i + |EscapeChars(p)| < |json| && json[i..i + |EscapeChars(p)|] == EscapeChars(p) && json[i + |EscapeChars(p)|] == '"'
  }

  /** Past the first escaped character, the rest of `p` follows. */
  lemma EscapedTail(json: string, i: nat, p: string)
    requires p != [] && EscapedAt(json, i, p)
    ensures var n := |EscapeChar(p[0])|;
      i + n <= |json| && json[i..i + n] == EscapeChar(p[0]) && EscapedAt(json, i + n, p[1..])
  {
    var ex, et := EscapeChar(p[0]), EscapeChars(p[1..]);
    assert EscapeChars(p) == ex + et;
    SliceHalves(json, i, ex, et);
  }

  /** Reading an escaped text followed by a quote gives the text back. */
  lemma {:induction false} ReadEscaped(json: string, i: nat, p: string)
    requires EscapedAt(json, i, p)
    decreases |p|
    ensures ReadString(json, i) == Some(p)
  {
    if p != [] {
      EscapedTail(json, i, p);
      ReadEscaped(json, i + |EscapeChar(p[0])|, p[1..]);
      ReadStep(json, i, p[0], p[1..]);
      assert [p[0]] + p[1..] == p;
    }
  }

  /** `NextChar` finds `q` when `q` is the first `c` from `from`. */
  lemma NextCharAt(s: string, c: char, from: nat, q: nat)
    requires from <= q < |s| && s[q] == c && forall k :: from <= k < q ==> s[k] != c
    ensures NextChar(s, c, from) == Some(q)
  {
  }

  // ------------------------------------------------- where the value is

  /** In a text written by `toJson`, the key is found right after the
      indentation. */
  lemma KeyAt(rest: string)
    ensures IndexOf(INDENT + KEY + rest, KEY) == Some(|INDENT|)
  {
    var json := INDENT + KEY + rest;
    assert json[|INDENT|..|INDENT| + |KEY|] == KEY;
    forall j | 0 <= j < |INDENT| ensures !MatchAt(json, KEY, j) {
      MatchChar(json, KEY, j, 0);
      assert json[j] == INDENT[j];
    }
    IndexOfExact(json, KEY, |INDENT|);
  }

  /** The colon and the opening quote of a text that starts with the
      head: the colon right after the key, the quote two further on. */
  lemma HeadMarks(rest: string)
    ensures NextChar(JSON_HEAD + rest, ':', |INDENT|) == Some(|INDENT| + |KEY|)
    ensures NextChar(JSON_HEAD + rest, '"', |INDENT| + |KEY| + 1) == Some(|JSON_HEAD| - 1)
  {
    var json := JSON_HEAD + rest;
    var colon := |INDENT| + |KEY|;
    assert json[..|JSON_HEAD|] == JSON_HEAD;
    forall k | |INDENT| <= k < colon ensures json[k] != ':' {
      assert json[k] == JSON_HEAD[k] == KEY[k - |INDENT|];
    }
    assert json[colon] == JSON_HEAD[colon] == ':';
    NextCharAt(json, ':', |INDENT|, colon);
    assert json[colon + 1] == JSON_HEAD[colon + 1] == ' ';
    assert json[colon + 2] == JSON_HEAD[colon + 2] == '"';
    NextCharAt(json, '"', colon + 1, colon + 2);
  }

  /** In a text that starts with the head, the value starts right after
      it. */
  lemma ValueStartOfHead(rest: string)
    ensures ValueStart(JSON_HEAD + rest) == Some(|JSON_HEAD|)
  {
    assert JSON_HEAD + rest == INDENT + KEY + (COLON + rest);
    KeyAt(COLON + rest);
    HeadMarks(rest);
  }

  /** Where `toJson` puts the escaped path: after the head, and followed by
      the closing quote. */
  lemma ToJsonLayout(e: string)
    ensures ValueStart(JSON_HEAD + e + JSON_TAIL) == Some(|JSON_HEAD|)
    ensures var json := JSON_HEAD + e + JSON_TAIL;
      |JSON_HEAD| + |e| < |json| && json[|JSON_HEAD|..|JSON_HEAD| + |e|] == e && json[|JSON_HEAD| + |e|] == '"'
  {
    assert JSON_HEAD + e + JSON_TAIL == JSON_HEAD + (e + JSON_TAIL);
    ValueStartOfHead(e + JSON_TAIL);
    Middle(JSON_HEAD, e, JSON_TAIL);
  }

  /** The middle of a three-part concatenation, and what follows it. */
  lemma Middle(h: string, e: string, t: string)
    requires t != []
    ensures |h| + |e| < |h + e + t|
    ensures (h + e + t)[|h|..|h| + |e|] == e && (h + e + t)[|h| + |e|] == t[0]
  {
  }

  /** The reader as written returns the text up to the next quote. */
  lemma AsWrittenAt(json: string, e: string)
    requires ValueStart(json).Some?
    requires var start := ValueStart(json).value;
      start + |e| < |json| && json[start..start + |e|] == e && json[start + |e|] == '"'
    requires '"' !in e
    ensures ParseCredentialPathOrNull(json) == Some(e)
  {
    var start := ValueStart(json).value;
    NoQuoteInSlice(json, start, e);
    NextCharAt(json, '"', start, start + |e|);
  }

  /** A slice that spells a text without quotes holds no quote. */
  lemma NoQuoteInSlice(json: string, start: nat, e: string)
    requires start + |e| <= |json| && json[start..start + |e|] == e && '"' !in e
    ensures forall k :: start <= k < start + |e| ==> json[k] != '"'
  {
    forall k | start <= k < start + |e| ensures json[k] != '"' {
      assert json[k] == e[k - start];
    }
  }

  /** The round trip as written: a path without `"` comes back escaped,
      its backslashes doubled. */
  lemma ParseToJsonAsWritten(p: string)
    requires '"' !in p
    ensures ParseCredentialPathOrNull(ToJson(p)) == Some(EscapeJson(p))
  {
    ToJsonLayout(EscapeJson(p));
    AsWrittenAt(ToJson(p), EscapeJson(p));
  }

  /** A path without backslashes or quotes survives the round trip as
      written. */
  lemma ParseToJsonPlain(p: string)
    requires '"' !in p && '\\' !in p
    ensures ParseCredentialPathOrNull(ToJson(p)) == Some(p)
  {
    ParseToJsonAsWritten(p);
  }

  /** Escaping lengthens a text by one for each backslash or quote. */
  lemma {:induction false} EscapeJsonLonger(p: string)
    decreases |p|
    ensures |EscapeJson(p)| >= |p|
    ensures '\\' in p ==> |EscapeJson(p)| > |p|
  {
    if p == [] {
      assert EscapeJson(p) == [];
    } else {
      assert p == [p[0]] + p[1..];
      EscapeJsonCons(p[0], p[1..]);
      EscapeJsonLonger(p[1..]);
    }
  }

  /** A path with a backslash, such as the Windows-style `a\b`, does not
      survive the round trip as written: it is read back longer. */
  lemma AsWrittenLosesBackslashPaths(p: string)
    requires '"' !in p && '\\' in p
    ensures ParseCredentialPathOrNull(ToJson(p)) != Some(p)
  {
    ParseToJsonAsWritten(p);
    EscapeJsonLonger(p);
  }

  /** The smallest such path: `a\b` is read back as something else. */
  lemma AsWrittenMisreadsWindowsPath()
    ensures ParseCredentialPathOrNull(ToJson("a\\b")) != Some("a\\b")
  {
    var p := "a\\b";
    assert p[1] == '\\';
    assert forall k :: 0 <= k < |p| ==> p[k] != '"';
    AsWrittenLosesBackslashPaths(p);
  }

  /** The intended round trip: every path, backslashes and quotes
      included, is read back exactly. */
  lemma ParseToJsonRoundTrip(p: string)
    ensures ParseCredentialPath(ToJson(p)) == Some(p)
  {
    ToJsonLayout(EscapeJson(p));
    EscapeJsonChars(p);
    ReadEscaped(ToJson(p), |JSON_HEAD|, p);
  }

  // ------------------------------------------------- status and saving

  /** `loadStatus`: `config` is the config file's text, none when the
      file is missing or cannot be read. */
  function LoadStatus(config: Option<string>): (r: CredentialsStatus)
    ensures config.None? ==> r == NotSaved
    ensures config.Some? ==> (r.NotSaved? <==> ParseCredentialPath(config.value).None?)
    ensures r.Saved? ==> Some(r.credentialPath) == ParseCredentialPath(config.value)
  {
    match config
    case None => NotSaved
    case Some(content) =>
      match ParseCredentialPath(content)
      case None => NotSaved
      case Some(path) => Saved(path)
  }

  /** `loadStatus` with the reader as written. */
  function LoadStatusAsWritten(config: Option<string>): (r: CredentialsStatus)
    ensures config.None? ==> r == NotSaved
    ensures config.Some? ==> (r.NotSaved? <==> ParseCredentialPathOrNull(config.value).None?)
    ensures r.Saved? ==> Some(r.credentialPath) == ParseCredentialPathOrNull(config.value)
  {
    match config
    case None => NotSaved
    case Some(content) =>
      match ParseCredentialPathOrNull(content)
      case None => NotSaved
      case Some(path) => Saved(path)
  }

  /** The "very light" JSON test: after leading whitespace the text is not
      empty and starts with `{`. */
  predicate LooksLikeJson(raw: string) {
    var trimmed := TrimStart(raw);
    trimmed != [] && trimmed[0] == '{'
  }

  /** What the app learns of the file the user picked. `content` is its
      text, none when it cannot be read. */
  datatype SelectedFile = SelectedFile(present: bool, isFile: bool, content: Option<string>, absolutePath: string)

  /** The app's settings on disk: the credentials config file's text and
      the remembered last-selected path. */
  class CredentialsStore {
    var configFile: Option<string>
    var lastSelectedPath: Option<string>

    constructor(configFile: Option<string>, lastSelectedPath: Option<string>)
      ensures this.configFile == configFile && this.lastSelectedPath == lastSelectedPath
    {
      this.configFile := configFile;
      this.lastSelectedPath := lastSelectedPath;
    }

    /** `saveFromSelectedFile`. A missing file, a folder, an unreadable
        file, text that does not look like JSON, or an app folder that
        cannot be made is refused with its message and nothing is saved.
        Otherwise the config file holds `toJson` of the file's path, the
        path is remembered, and the status is Saved with that path.
        `appDirReady` is whether the app folder exists after `mkdirs`. */
    method SaveFromSelectedFile(selected: SelectedFile, appDirReady: bool, appDirPath: string)
      returns (r: Result<CredentialsStatus, string>)
      modifies this
      ensures !selected.present ==> r == Err(NOT_FOUND)
      ensures selected.present && !selected.isFile ==> r == Err(NOT_A_FILE)
      ensures selected.present && selected.isFile && selected.content.None? ==> r == Err(UNREADABLE)
      ensures (selected.present && selected.isFile && selected.content.Some? && !LooksLikeJson(selected.content.value))
        ==> r == Err(NOT_JSON)
      ensures (selected.present && selected.isFile && selected.content.Some? && LooksLikeJson(selected.content.value)
        && !appDirReady) ==> r == Err(NO_APP_DIR + appDirPath)
      ensures r.Err? ==> configFile == old(configFile) && lastSelectedPath == old(lastSelectedPath)
      ensures r.Ok? <==> (selected.present && selected.isFile && selected.content.Some?
        && LooksLikeJson(selected.content.value) && appDirReady)
      ensures r.Ok? ==> (r.value == Saved(selected.absolutePath)
        && configFile == Some(ToJson(selected.absolutePath))
        && lastSelectedPath == Some(selected.absolutePath))
    {
      if !selected.present {
        return Err(NOT_FOUND);
      }
      if !selected.isFile {
        return Err(NOT_A_FILE);
      }
      if selected.content.None? {
        return Err(UNREADABLE);
      }
      if !LooksLikeJson(selected.content.value) {
        return Err(NOT_JSON);
      }
      if !appDirReady {
        return Err(NO_APP_DIR + appDirPath);
      }
      configFile := Some(ToJson(selected.absolutePath));
      lastSelectedPath := Some(selected.absolutePath);
      return Ok(Saved(selected.absolutePath));
    }
  }

  /** After a save the status read back names the saved path, whatever
      characters it holds. */
  lemma SaveThenLoad(path: string)
    ensures LoadStatus(Some(ToJson(path))) == Saved(path)
  {
    ParseToJsonRoundTrip(path);
  }

  /** With the reader as written, a saved path with backslashes reads
      back escaped. */
  lemma SaveThenLoadAsWritten(path: string)
    requires '"' !in path
    ensures LoadStatusAsWritten(Some(ToJson(path))) == Saved(EscapeJson(path))
  {
    ParseToJsonAsWritten(path);
  }
}
