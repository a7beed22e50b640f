/**
 * The room-name filter, the `key=value` configuration reader and the
 * room-state merge of the universal game server.  Text is a sequence of
 * characters; only the ASCII (and Latin-1 space) part of Python's character
 * classes is modelled.
 */
module Server {
  import opened Common

  // ---------------------------------------------------------------------
  // Character classes and the str methods the server uses
  // ---------------------------------------------------------------------

  predicate IsAsciiLetter(c: char) { 'a' <= c <= 'z' || 'A' <= c <= 'Z' }

  predicate IsAsciiDigit(c: char) { '0' <= c <= '9' }

  /** `str.isalnum` on ASCII text. */
  predicate IsAlnum(c: char) { IsAsciiLetter(c) || IsAsciiDigit(c) }

  /** `str.isspace`: the ASCII white space, the separators 0x1C..0x1F, NEL and NBSP. */
  predicate IsSpace(c: char)
  {
    c == ' ' || '\t' <= c <= '\r' || '\U{1C}' <= c <= '\U{1F}' || c == '\U{85}' || c == '\U{A0}'
  }

  /** The end of the run of white space that starts at `i`. */
  function SkipSpaces(s: string, i: nat): (j: nat)
    requires i <= |s|
    ensures i <= j <= |s|
    ensures forall k :: i <= k < j ==> IsSpace(s[k])
    ensures j == |s| || !IsSpace(s[j])
    decreases |s| - i
  {
    if i < |s| && IsSpace(s[i]) then SkipSpaces(s, i + 1) else i
  }

  /** The start of the run of white space that ends at `j`. */
  function BackSpaces(s: string, j: nat): (k: nat)
    requires j <= |s|
    ensures k <= j
    ensures forall m :: k <= m < j ==> IsSpace(s[m])
    ensures k == 0 || !IsSpace(s[k - 1])
  {
    if j > 0 && IsSpace(s[j - 1]) then BackSpaces(s, j - 1) else j
  }

  /** `str.strip()`: the white space at both ends goes. */
  function Strip(s: string): (r: string)
    ensures |r| <= |s|
    ensures r == [] || (!IsSpace(r[0]) && !IsSpace(r[|r| - 1]))
  {
    var a := SkipSpaces(s, 0);
    if a == |s| then [] else s[a..BackSpaces(s, |s|)]
  }

  /** Strip removes only white space: any other character stays. */
  lemma {:induction false} StripKeeps(s: string, c: char)
    requires c in s && !IsSpace(c)
    ensures c in Strip(s)
  {
    var i :| 0 <= i < |s| && s[i] == c;
    var a, b := SkipSpaces(s, 0), BackSpaces(s, |s|);
    assert a <= i < b;
    assert s[a..b][i - a] == c;
  }

  /** Strip adds nothing. */
  lemma {:induction false} StripWithout(s: string, c: char)
    requires c !in s
    ensures c !in Strip(s)
  {
  }

  /** A text without white space is kept as it is. */
  lemma {:induction false} StripNoSpace(s: string)
    requires forall i :: 0 <= i < |s| ==> !IsSpace(s[i])
    ensures Strip(s) == s
  {
    if s != [] {
      assert SkipSpaces(s, 0) == 0;
      assert BackSpaces(s, |s|) == |s|;
    }
  }

  /** `str.lower()` on one character: only `A`..`Z` change. */
  function LowerChar(c: char): (d: char)
    ensures 'A' <= c <= 'Z' ==> d as int == c as int + 32
    ensures !('A' <= c <= 'Z') ==> d == c
  {
    if 'A' <= c <= 'Z' then (c as int + 32) as char else c
  }

  /** `str.upper()` on one character: only `a`..`z` change. */
  function UpperChar(c: char): (d: char)
    ensures 'a' <= c <= 'z' ==> d as int == c as int - 32
    ensures !('a' <= c <= 'z') ==> d == c
  {
    if 'a' <= c <= 'z' then (c as int - 32) as char else c
  }

  /** `str.lower()`. */
  function Lower(s: string): (r: string)
    ensures |r| == |s| && forall i :: 0 <= i < |s| ==> r[i] == LowerChar(s[i])
  {
    seq(|s|, i requires 0 <= i < |s| => LowerChar(s[i]))
  }

  /** `str.upper()`. */
  function Upper(s: string): (r: string)
    ensures |r| == |s| && forall i :: 0 <= i < |s| ==> r[i] == UpperChar(s[i])
  {
    seq(|s|, i requires 0 <= i < |s| => UpperChar(s[i]))
  }

  // ---------------------------------------------------------------------
  // safe_name
  // ---------------------------------------------------------------------

  /** The characters a room name keeps. */
  predicate Allowed(c: char) { IsAlnum(c) || c == '-' || c == '_' }

  /** A room name made only of allowed characters. */
  predicate IsSafe(s: string) { forall i :: 0 <= i < |s| ==> Allowed(s[i]) }

  /** The generator expression of `safe_name`: the allowed characters, in order. */
  function Filtered(s: string): (r: string)
    ensures |r| <= |s|
    ensures forall i :: 0 <= i < |r| ==> Allowed(r[i])
    ensures r == [] <==> forall i :: 0 <= i < |s| ==> !Allowed(s[i])
  {
    if s == [] then []
    else
      var r := (if Allowed(s[0]) then [s[0]] else []) + Filtered(s[1..]);
      assert (forall i :: 0 <= i < |s| ==> !Allowed(s[i]))
        <==> !Allowed(s[0]) && forall i :: 0 <= i < |s[1..]| ==> !Allowed(s[1..][i]) by {
        assert forall i :: 1 <= i < |s| ==> s[i] == s[1..][i - 1];
      }
      r
  }

  /** One character: kept when it is allowed, dropped otherwise. */
  lemma {:induction false} FilteredSingle(c: char)
    ensures Allowed(c) ==> Filtered([c]) == [c]
    ensures !Allowed(c) ==> Filtered([c]) == []
  {
    assert [c][1..] == [];
  }

  /** The filter keeps order: it works piece by piece. */
  lemma {:induction false} FilteredAppend(a: string, b: string)
    ensures Filtered(a + b) == Filtered(a) + Filtered(b)
    decreases |a|
  {
    if a == [] {
      assert a + b == b;
    } else {
      assert (a + b)[0] == a[0] && (a + b)[1..] == a[1..] + b;
      FilteredAppend(a[1..], b);
    }
  }

  /** A text made only of allowed characters passes unchanged. */
  lemma {:induction false} FilteredKeepsSafe(s: string)
    requires IsSafe(s)
    ensures Filtered(s) == s
    decreases |s|
  {
    if s != [] {
      FilteredKeepsSafe(s[1..]);
    }
  }

  /**
   * `safe_name(name)`: the allowed characters of `name` in their order, or
   * `DEFAULT_ROOM` when none is left.  No allowed character is white space,
   * so the `strip()` in between never removes anything.
   */
  function SafeName(name: string, defaultRoom: string): (r: string)
    ensures Filtered(name) != [] ==> r == Filtered(name)
    ensures Filtered(name) == [] ==> r == defaultRoom
    ensures r == [] ==> defaultRoom == []
  {
    StripNoSpace(Filtered(name));
    var kept := Strip(Filtered(name));
    if kept != [] then kept else defaultRoom
  }

  /** With a safe default room, the name is safe and filtering it again changes nothing. */
  lemma {:induction false} SafeNameIdempotent(name: string, defaultRoom: string)
    requires IsSafe(defaultRoom)
    ensures IsSafe(SafeName(name, defaultRoom))
    ensures SafeName(SafeName(name, defaultRoom), defaultRoom) == SafeName(name, defaultRoom)
  {
    var r := SafeName(name, defaultRoom);
    FilteredKeepsSafe(r);
  }

  // ---------------------------------------------------------------------
  // Reading config.txt
  // ---------------------------------------------------------------------

  /**
   * `t.split(c, 1)` when `t` holds `c`: the text before the first `c`, and
   * the rest after it.
   */
  function SplitOnce(t: string, c: char): (parts: (string, string))
    requires c in t
    ensures |parts.0| + 1 + |parts.1| == |t|
  {
    var k := IndexOf(t, c);
    (t[..k], t[k + 1..])
  }

  /** The two parts and the separator between them make up the text; only the second may hold `c`. */
  lemma {:induction false} SplitOnceRejoins(t: string, c: char)
    requires c in t
    ensures SplitOnce(t, c).0 + [c] + SplitOnce(t, c).1 == t
    ensures c !in SplitOnce(t, c).0
  {
    var k := IndexOf(t, c);
    assert t == t[..k] + [c] + t[k + 1..];
  }

  /**
   * One line of the file: ignored without `=`; otherwise stripped, split at
   * its first `=`, and key and value stripped again.
   */
  function ParseLine(line: string): (r: Option<(string, string)>)
  {
    if '=' !in line then None
    else
      StripKeeps(line, '=');
      var parts := SplitOnce(Strip(line), '=');
      Some((Strip(parts.0), Strip(parts.1)))
  }

  /** A line counts exactly when it holds `=`, and the key it sets holds no `=`. */
  lemma {:induction false} ParseLineShape(line: string)
    ensures ParseLine(line).None? <==> '=' !in line
    ensures ParseLine(line).Some? ==> '=' !in ParseLine(line).value.0
  {
    if '=' in line {
      StripKeeps(line, '=');
      var parts := SplitOnce(Strip(line), '=');
      SplitOnceRejoins(Strip(line), '=');
      StripWithout(parts.0, '=');
    }
  }

  /** What one line contributes: a key and its value, or nothing. */
  type Entry = Option<(string, string)>

  /** The lines of the file, each read on its own. */
  function Entries(lines: seq<string>): (es: seq<Entry>)
    ensures |es| == |lines| && forall i :: 0 <= i < |lines| ==> es[i] == ParseLine(lines[i])
  {
    seq(|lines|, i requires 0 <= i < |lines| => ParseLine(lines[i]))
  }

  /** `CONFIG` after the first `n` entries, starting from the emptied dict. */
  function Apply(es: seq<Entry>, n: nat): map<string, string>
    requires n <= |es|
  {
    if n == 0 then map[]
    else if es[n - 1].Some? then Apply(es, n - 1)[es[n - 1].value.0 := es[n - 1].value.1]
    else Apply(es, n - 1)
  }

  /** One more line: a line with `=` sets its key, any other leaves `CONFIG` alone. */
  lemma {:induction false} ApplyStep(lines: seq<string>, i: nat)
    requires i < |lines|
    ensures ParseLine(lines[i]).Some? ==>
      Apply(Entries(lines), i + 1) == Apply(Entries(lines), i)[ParseLine(lines[i]).value.0 := ParseLine(lines[i]).value.1]
    ensures ParseLine(lines[i]).None? ==> Apply(Entries(lines), i + 1) == Apply(Entries(lines), i)
  {
    var es := Entries(lines);
    assert es[i] == ParseLine(lines[i]);
  }

  /** `CONFIG` after the whole file. */
  function ParsedConfig(lines: seq<string>): map<string, string>
  {
    Apply(Entries(lines), |lines|)
  }

  /** The entry sets `key`. */
  predicate Sets(e: Entry, key: string) { e.Some? && e.value.0 == key }

  /** The line sets `key`. */
  predicate SetsKey(line: string, key: string) { Sets(ParseLine(line), key) }

  /** A key after `n` entries was set by one of them: the lemma returns that entry. */
  lemma {:induction false} KeySetter(es: seq<Entry>, n: nat, key: string) returns (i: nat)
    requires n <= |es| && key in Apply(es, n)
    ensures i < n && Sets(es[i], key)
  {
    if Sets(es[n - 1], key) {
      i := n - 1;
    } else {
      i := KeySetter(es, n - 1, key);
    }
  }

  /** A key one of the first `n` entries sets is in the dict after them. */
  lemma {:induction false} KeyKept(es: seq<Entry>, n: nat, i: nat, key: string)
    requires i < n <= |es| && Sets(es[i], key)
    ensures key in Apply(es, n)
  {
    if i < n - 1 {
      KeyKept(es, n - 1, i, key);
    }
  }

  /** The keys of `CONFIG` are exactly the keys of the lines that hold `=`. */
  lemma {:induction false} ParsedConfigKeys(lines: seq<string>, key: string)
    ensures key in ParsedConfig(lines) <==> exists i :: 0 <= i < |lines| && SetsKey(lines[i], key)
  {
    var es := Entries(lines);
    if key in ParsedConfig(lines) {
      var i := KeySetter(es, |lines|, key);
      assert SetsKey(lines[i], key);
    }
    if exists i :: 0 <= i < |lines| && SetsKey(lines[i], key) {
      var i :| 0 <= i < |lines| && SetsKey(lines[i], key);
      KeyKept(es, |lines|, i, key);
    }
  }

  /** A key takes the value of the last entry among the first `n` that sets it. */
  lemma {:induction false} LastEntryWins(es: seq<Entry>, n: nat, i: nat)
    requires i < n <= |es| && es[i].Some?
    requires forall j :: i < j < n ==> !Sets(es[j], es[i].value.0)
    ensures es[i].value.0 in Apply(es, n) && Apply(es, n)[es[i].value.0] == es[i].value.1
  {
    if i < n - 1 {
      LastEntryWins(es, n - 1, i);
    }
  }

  /** A later line with the same key overrides an earlier one. */
  lemma {:induction false} LastLineWins(lines: seq<string>, i: nat)
    requires i < |lines| && ParseLine(lines[i]).Some?
    requires forall j :: i < j < |lines| ==> !SetsKey(lines[j], ParseLine(lines[i]).value.0)
    ensures ParseLine(lines[i]).value.0 in ParsedConfig(lines)
    ensures ParsedConfig(lines)[ParseLine(lines[i]).value.0] == ParseLine(lines[i]).value.1
  {
    var es := Entries(lines);
    forall j | i < j < |es|
      ensures !Sets(es[j], es[i].value.0)
    {
      assert !SetsKey(lines[j], ParseLine(lines[i]).value.0);
    }
    LastEntryWins(es, |lines|, i);
  }

  /** An empty entry between `a` and `b` changes nothing, however far `b` is read. */
  lemma {:induction false} EmptyEntryIgnored(a: seq<Entry>, b: seq<Entry>, n: nat)
    requires n <= |b|
    ensures Apply(a + [None] + b, |a| + 1 + n) == Apply(a + b, |a| + n)
  {
    var with, without := a + [None] + b, a + b;
    if n == 0 {
      SameEntries(with, without, |a|);
    } else {
      EmptyEntryIgnored(a, b, n - 1);
      assert with[|a| + 1 + n - 1] == b[n - 1] == without[|a| + n - 1];
    }
  }

  /** Entry lists that agree on their first `n` entries read the same up to there. */
  lemma {:induction false} SameEntries(x: seq<Entry>, y: seq<Entry>, n: nat)
    requires n <= |x| && n <= |y| && forall i :: 0 <= i < n ==> x[i] == y[i]
    ensures Apply(x, n) == Apply(y, n)
  {
    if n > 0 {
      SameEntries(x, y, n - 1);
    }
  }

  /** Reading two pieces of a file is reading the whole. */
  lemma {:induction false} EntriesAppend(x: seq<string>, y: seq<string>)
    ensures Entries(x + y) == Entries(x) + Entries(y)
  {
    var xy := x + y;
    forall i | 0 <= i < |xy|
      ensures Entries(xy)[i] == (Entries(x) + Entries(y))[i]
    {
      if i < |x| {
        assert xy[i] == x[i];
      } else {
        assert xy[i] == y[i - |x|];
      }
    }
  }

  /** A line without `=` may be dropped from anywhere in the file. */
  lemma {:induction false} LineWithoutEqualsIgnored(before: seq<string>, line: string, after: seq<string>)
    requires '=' !in line
    ensures ParsedConfig(before + [line] + after) == ParsedConfig(before + after)
  {
    var a, b := Entries(before), Entries(after);
    EntriesAppend(before + [line], after);
    EntriesAppend(before, [line]);
    EntriesAppend(before, after);
    assert Entries([line]) == [None];
    EmptyEntryIgnored(a, b, |after|);
  }

  // ---------------------------------------------------------------------
  // The settings derived from CONFIG
  // ---------------------------------------------------------------------

  /** `CONFIG.get(key, default)`. */
  function Get(config: map<string, string>, key: string, default: string): (v: string)
    ensures key in config ==> v == config[key]
    ensures key !in config ==> v == default
  {
    if key in config then config[key] else default
  }

  /** A flag setting: its value, lower-cased, is `"true"`. */
  predicate Flag(config: map<string, string>, key: string, default: string)
  {
    Lower(Get(config, key, default)) == "true"
  }

  /** `true` in any mix of cases. */
  predicate SpellsTrue(v: string)
  {
    |v| == 4 && (v[0] == 't' || v[0] == 'T') && (v[1] == 'r' || v[1] == 'R')
    && (v[2] == 'u' || v[2] == 'U') && (v[3] == 'e' || v[3] == 'E')
  }

  /** A flag is set exactly by `true` in any case, and its default applies when the key is missing. */
  lemma {:induction false} FlagMeaning(config: map<string, string>, key: string, default: string)
    ensures Flag(config, key, default) <==> SpellsTrue(Get(config, key, default))
  {
    var v := Get(config, key, default);
    if SpellsTrue(v) {
      assert Lower(v) == "true";
    }
    if Lower(v) == "true" {
      assert LowerChar(v[0]) == 't' && LowerChar(v[1]) == 'r' && LowerChar(v[2]) == 'u' && LowerChar(v[3]) == 'e';
    }
  }

  /** The value of a run of ASCII digits. */
  function DigitsValue(ds: string): (n: nat)
    requires forall i :: 0 <= i < |ds| ==> IsAsciiDigit(ds[i])
  {
    if ds == [] then 0
    else
      assert IsAsciiDigit(ds[|ds| - 1]);
      10 * DigitsValue(ds[..|ds| - 1]) + (ds[|ds| - 1] as int - '0' as int)
  }

  predicate AllDigits(ds: string) { ds != [] && forall i :: 0 <= i < |ds| ==> IsAsciiDigit(ds[i]) }

  /**
   * `int(text)`: white space around an optional sign and a run of digits.
   * `None` stands for the `ValueError` Python raises.
   */
  function ParseInt(text: string): (r: Option<int>)
    ensures r.Some? ==> Strip(text) != []
  {
    var t := Strip(text);
    if t == [] then None
    else if (t[0] == '-' || t[0] == '+') && AllDigits(t[1..]) then
      var v: int := DigitsValue(t[1..]);
      Some(if t[0] == '-' then -v else v)
    else if AllDigits(t) then Some(DigitsValue(t))
    else None
  }

  /** The decimal text of a natural number, as `str(n)` writes it. */
  function Decimal(n: nat): (s: string)
    ensures AllDigits(s)
  {
    if n < 10 then ['0' + n as char]
    else Decimal(n / 10) + ['0' + (n % 10) as char]
  }

  /** The digits `str(n)` writes have the value `n`. */
  lemma {:induction false} DecimalValue(n: nat)
    ensures DigitsValue(Decimal(n)) == n
  {
    if n >= 10 {
      var s := Decimal(n);
      DecimalValue(n / 10);
      assert s[..|s| - 1] == Decimal(n / 10);
      assert s[|s| - 1] == '0' + (n % 10) as char;
    }
  }

  /** `int(str(n)) == n`. */
  lemma {:induction false} ParseIntDecimal(n: nat)
    ensures ParseInt(Decimal(n)) == Some(n)
  {
    var s := Decimal(n);
    assert forall i :: 0 <= i < |s| ==> !IsSpace(s[i]) by {
      forall i | 0 <= i < |s| ensures !IsSpace(s[i]) {
        assert IsAsciiDigit(s[i]);
      }
    }
    StripNoSpace(s);
    DecimalValue(n);
    assert s[0] != '-' && s[0] != '+' by {
      assert IsAsciiDigit(s[0]);
    }
  }

  /** The level names of the `logging` module and their numeric values. */
  const LevelNames: map<string, int> :=
    map["CRITICAL" := 50, "FATAL" := 50, "ERROR" := 40, "WARNING" := 30, "WARN" := 30,
        "INFO" := 20, "DEBUG" := 10, "NOTSET" := 0]

  /** White space around the text is what `strip()` removes. */
  lemma {:induction false} StripPadded(pre: string, t: string, post: string)
    requires forall i :: 0 <= i < |pre| ==> IsSpace(pre[i])
    requires forall i :: 0 <= i < |post| ==> IsSpace(post[i])
    requires t != [] && !IsSpace(t[0]) && !IsSpace(t[|t| - 1])
    ensures Strip(pre + t + post) == t
  {
    var s := pre + t + post;
    assert forall k :: 0 <= k < |pre| ==> s[k] == pre[k];
    assert forall k :: |pre| + |t| <= k < |s| ==> s[k] == post[k - |pre| - |t|];
    assert s[|pre|] == t[0] && s[|pre| + |t| - 1] == t[|t| - 1];
    var a := SkipSpaces(s, 0);
    var b := BackSpaces(s, |s|);
    assert a == |pre| && b == |pre| + |t|;
    assert s[a..b] == t;
  }

  /** `int()` reads a decimal with white space around it. */
  lemma {:induction false} ParseIntPadded(pre: string, n: nat, post: string)
    requires forall i :: 0 <= i < |pre| ==> IsSpace(pre[i])
    requires forall i :: 0 <= i < |post| ==> IsSpace(post[i])
    ensures ParseInt(pre + Decimal(n) + post) == Some(n)
  {
    var d := Decimal(n);
    assert IsAsciiDigit(d[0]) && IsAsciiDigit(d[|d| - 1]);
    DecimalValue(n);
    StripPadded(pre, d, post);
  }

  /** `int()` reads a signed decimal with white space around it. */
  lemma {:induction false} ParseIntSigned(pre: string, sign: char, n: nat, post: string)
    requires forall i :: 0 <= i < |pre| ==> IsSpace(pre[i])
    requires forall i :: 0 <= i < |post| ==> IsSpace(post[i])
    requires sign == '-' || sign == '+'
    ensures ParseInt(pre + [sign] + Decimal(n) + post) == Some(if sign == '-' then -(n as int) else n as int)
  {
    var d := Decimal(n);
    var t := [sign] + d;
    assert IsAsciiDigit(d[|d| - 1]) && t[|t| - 1] == d[|d| - 1];
    DecimalValue(n);
    assert pre + [sign] + d + post == pre + t + post;
    StripPadded(pre, t, post);
    assert t[1..] == d;
  }

  /** `int()` raises when the stripped text holds a character that is no digit and no leading sign. */
  lemma {:induction false} ParseIntRejects(text: string, i: nat)
    requires i < |Strip(text)| && !IsAsciiDigit(Strip(text)[i])
    requires i > 0 || (Strip(text)[0] != '-' && Strip(text)[0] != '+')
    ensures ParseInt(text) == None
  {
    var t := Strip(text);
    if i > 0 {
      assert t[1..][i - 1] == t[i];
    }
  }

  /** A sign with no digits after it is no number. */
  lemma {:induction false} ParseIntBareSign(text: string)
    requires Strip(text) == ['-'] || Strip(text) == ['+']
    ensures ParseInt(text) == None
  {
    assert Strip(text)[1..] == [];
  }

  /** The numeric level `getattr(logging, name.upper(), logging.INFO)` finds for a level name. */
  function LogLevel(name: string): (level: int)
    ensures Upper(name) in LevelNames ==> level == LevelNames[Upper(name)]
    ensures Upper(name) !in LevelNames ==> level == 20
  {
    var u := Upper(name);
    if u == "CRITICAL" || u == "FATAL" then 50
    else if u == "ERROR" then 40
    else if u == "WARNING" || u == "WARN" then 30
    else if u == "DEBUG" then 10
    else if u == "NOTSET" then 0
    else 20
  }

  /** The level names are read in any case, and an unknown name gives `INFO`. */
  lemma {:induction false} LogLevelExamples()
    ensures LogLevel("debug") == 10 && LogLevel("Warn") == 30 && LogLevel("critical") == 50
    ensures LogLevel("verbose") == 20
  {
    assert Upper("debug") == "DEBUG";
    assert Upper("Warn") == "WARN";
    assert Upper("critical") == "CRITICAL";
    assert Upper("verbose") == "VERBOSE";
  }

  /** The port: `SERVER_PORT` read as a number, 8080 without it; `None` where `int` raises. */
  function PortSetting(config: map<string, string>): (r: Option<int>)
    ensures "SERVER_PORT" !in config ==> r == Some(8080)
    ensures "SERVER_PORT" in config ==> r == ParseInt(config["SERVER_PORT"])
  {
    if "SERVER_PORT" in config then ParseInt(config["SERVER_PORT"]) else Some(8080)
  }

  /** The upload limit in megabytes: `MAX_UPLOAD_SIZE_MB` read as a number, 50 without it. */
  function UploadMegabytes(config: map<string, string>): (r: Option<int>)
    ensures "MAX_UPLOAD_SIZE_MB" !in config ==> r == Some(50)
    ensures "MAX_UPLOAD_SIZE_MB" in config ==> r == ParseInt(config["MAX_UPLOAD_SIZE_MB"])
  {
    if "MAX_UPLOAD_SIZE_MB" in config then ParseInt(config["MAX_UPLOAD_SIZE_MB"]) else Some(50)
  }

  /** A configured upload limit of `n` megabytes, written as `str(n)`, is `n` MiB. */
  lemma {:induction false} UploadSizeOfDecimal(config: map<string, string>, n: nat)
    requires "MAX_UPLOAD_SIZE_MB" in config && config["MAX_UPLOAD_SIZE_MB"] == Decimal(n)
    ensures UploadMegabytes(config) == Some(n)
  {
    ParseIntDecimal(n);
  }

  /** The loop of `load_config` over the file, into the emptied dict. */
  method ReadLines(lines: seq<string>) returns (config: map<string, string>)
    ensures config == ParsedConfig(lines)
  {
    config := map[];
    var i := 0;
    while i < |lines|
      invariant 0 <= i <= |lines|
      invariant config == Apply(Entries(lines), i)
    {
      config := ReadLine(config, lines[i]);
      assert config == Apply(Entries(lines), i + 1) by {
        ApplyStep(lines, i);
      }
      i := i + 1;
    }
  }

  /** The loop body of `load_config`: a line with `=` stores its stripped key and value. */
  method ReadLine(config: map<string, string>, line: string) returns (config': map<string, string>)
    ensures ParseLine(line).Some? ==> config' == config[ParseLine(line).value.0 := ParseLine(line).value.1]
    ensures ParseLine(line).None? ==> config' == config
  {
    config' := config;
    if '=' in line {
      StripKeeps(line, '=');
      var parts := SplitOnce(Strip(line), '=');
      config' := config'[Strip(parts.0) := Strip(parts.1)];
    }
  }

  /**
   * The module globals `load_config` derives from CONFIG.  `staticDir` is
   * the configured directory name, relative to the server's own directory.
   */
  datatype Settings = Settings(
    serverIp: string,
    port: int,
    authorizedKeys: set<string>,
    autoOpenBrowser: bool,
    logLevel: int,
    maxUploadSize: int,
    roomPersistence: bool,
    allowDelete: bool,
    staticDir: string,
    corsEnabled: bool,
    defaultRoom: string,
    fileSearchPrefix: string,
    maintenanceMode: bool)

  /**
   * The globals after the assignments of `load_config`, starting from
   * `prior`, and whether they all ran: an `int` that raises stops the
   * assignments where it stands.  `newKey` is what `generate_key()` returns.
   */
  function Reloaded(config: map<string, string>, newKey: string, prior: Settings): (r: (Settings, bool))
    ensures r.1 <==> PortSetting(config).Some? && UploadMegabytes(config).Some?
  {
    var withIp := prior.(serverIp := Get(config, "SERVER_IP", "0.0.0.0"));
    match PortSetting(config)
    case None => (withIp, false)
    case Some(port) =>
      var withAccess := withIp.(port := port, authorizedKeys := {Get(config, "AUTH_KEY", newKey)},
                                autoOpenBrowser := Flag(config, "AUTO_OPEN_BROWSER", "True"),
                                logLevel := LogLevel(Get(config, "LOG_LEVEL", "INFO")));
      match UploadMegabytes(config)
      case None => (withAccess, false)
      case Some(megabytes) =>
        (withAccess.(maxUploadSize := megabytes * 1024 * 1024,
                     roomPersistence := Flag(config, "ROOM_PERSISTENCE", "True"),
                     allowDelete := Flag(config, "ALLOW_DELETE", "True"),
                     staticDir := Get(config, "STATIC_DIR", "static"),
                     corsEnabled := Flag(config, "CORS_ENABLED", "True"),
                     defaultRoom := Get(config, "DEFAULT_ROOM", "default"),
                     fileSearchPrefix := Get(config, "FILE_SEARCH_PREFIX", ""),
                     maintenanceMode := Flag(config, "MAINTENANCE_MODE", "False")), true)
  }

  /** The address is always taken from the dict, with its default. */
  lemma {:induction false} ReloadedAddress(config: map<string, string>, newKey: string, prior: Settings)
    ensures Reloaded(config, newKey, prior).0.serverIp == Get(config, "SERVER_IP", "0.0.0.0")
  {
  }

  /**
   * A port that reads as a number is taken, with the key, the browser flag
   * and the log level after it; otherwise all four keep their old values.
   */
  lemma {:induction false} ReloadedPort(config: map<string, string>, newKey: string, prior: Settings)
    ensures var s := Reloaded(config, newKey, prior).0;
      PortSetting(config).Some? ==>
        s.port == PortSetting(config).value && s.authorizedKeys == {Get(config, "AUTH_KEY", newKey)}
        && s.autoOpenBrowser == Flag(config, "AUTO_OPEN_BROWSER", "True")
        && s.logLevel == LogLevel(Get(config, "LOG_LEVEL", "INFO"))
    ensures var s := Reloaded(config, newKey, prior).0;
      PortSetting(config).None? ==>
        s.port == prior.port && s.authorizedKeys == prior.authorizedKeys
        && s.autoOpenBrowser == prior.autoOpenBrowser && s.logLevel == prior.logLevel
  {
  }

  /** When both numbers read, the upload limit is that many MiB and the rest come from the dict. */
  lemma {:induction false} ReloadedComplete(config: map<string, string>, newKey: string, prior: Settings)
    requires Reloaded(config, newKey, prior).1
    ensures var s := Reloaded(config, newKey, prior).0;
      s.maxUploadSize == UploadMegabytes(config).value * 1048576
      && s.roomPersistence == Flag(config, "ROOM_PERSISTENCE", "True")
      && s.allowDelete == Flag(config, "ALLOW_DELETE", "True")
      && s.staticDir == Get(config, "STATIC_DIR", "static")
      && s.corsEnabled == Flag(config, "CORS_ENABLED", "True")
      && s.defaultRoom == Get(config, "DEFAULT_ROOM", "default")
      && s.fileSearchPrefix == Get(config, "FILE_SEARCH_PREFIX", "")
      && s.maintenanceMode == Flag(config, "MAINTENANCE_MODE", "False")
  {
  }

  /** When a number does not read, every global from the upload limit on keeps its old value. */
  lemma {:induction false} ReloadedStopped(config: map<string, string>, newKey: string, prior: Settings)
    requires !Reloaded(config, newKey, prior).1
    ensures var s := Reloaded(config, newKey, prior).0;
      s.maxUploadSize == prior.maxUploadSize && s.roomPersistence == prior.roomPersistence
      && s.allowDelete == prior.allowDelete && s.staticDir == prior.staticDir
      && s.corsEnabled == prior.corsEnabled && s.defaultRoom == prior.defaultRoom
      && s.fileSearchPrefix == prior.fileSearchPrefix && s.maintenanceMode == prior.maintenanceMode
  {
  }

  /** A file without the optional keys gives the documented defaults. */
  lemma {:induction false} ReloadedDefaults(newKey: string, prior: Settings)
    ensures Reloaded(map[], newKey, prior) ==
      (Settings("0.0.0.0", 8080, {newKey}, true, 20, 50 * 1048576, true, true, "static", true, "default", "", false), true)
  {
    assert Lower("True") == "true";
    assert Lower("False") != "true";
    assert Upper("INFO") == "INFO";
  }

  /** The dict and the globals of the running server, updated by `load_config`. */
  class ServerConfig {
    var config: map<string, string>
    var settings: Settings

    constructor (initial: Settings)
      ensures config == map[] && settings == initial
    {
      config := map[];
      settings := initial;
    }

    /**
     * `load_config` over the lines of the file: the dict is rebuilt, then
     * the globals are assigned one after another until an `int` raises
     * (`ok` false).
     */
    method LoadConfig(lines: seq<string>, newKey: string) returns (ok: bool)
      modifies this
      ensures config == ParsedConfig(lines)
      ensures (settings, ok) == Reloaded(config, newKey, old(settings))
    {
      config := ReadLines(lines);
      ok := Reassign(newKey);
    }

    /** The assignments of `load_config` after the dict is rebuilt, in order. */
    method Reassign(newKey: string) returns (ok: bool)
      modifies this`settings
      ensures (settings, ok) == Reloaded(config, newKey, old(settings))
    {
      settings := settings.(serverIp := Get(config, "SERVER_IP", "0.0.0.0"));
      var port := PortSetting(config);
      if port.None? {
        return false;
      }
      settings := settings.(port := port.value, authorizedKeys := {Get(config, "AUTH_KEY", newKey)},
                            autoOpenBrowser := Flag(config, "AUTO_OPEN_BROWSER", "True"),
                            logLevel := LogLevel(Get(config, "LOG_LEVEL", "INFO")));
      var megabytes := UploadMegabytes(config);
      if megabytes.None? {
        return false;
      }
      settings := settings.(maxUploadSize := megabytes.value * 1024 * 1024,
                            roomPersistence := Flag(config, "ROOM_PERSISTENCE", "True"),
                            allowDelete := Flag(config, "ALLOW_DELETE", "True"),
                            staticDir := Get(config, "STATIC_DIR", "static"),
                            corsEnabled := Flag(config, "CORS_ENABLED", "True"),
                            defaultRoom := Get(config, "DEFAULT_ROOM", "default"),
                            fileSearchPrefix := Get(config, "FILE_SEARCH_PREFIX", ""),
                            maintenanceMode := Flag(config, "MAINTENANCE_MODE", "False"));
      ok := true;
    }
  }

  // ---------------------------------------------------------------------
  // Room state
  // ---------------------------------------------------------------------

  /**
   * `ROOM_DATA.setdefault(room, {})` followed by `ROOM_DATA[room].update(payload)`:
   * the payload's keys take its values, the room's other keys stay, and
   * the other rooms are untouched.
   */
  function Merged<V>(data: map<string, map<string, V>>, room: string, payload: map<string, V>)
    : (r: map<string, map<string, V>>)
    ensures room in r
    ensures r[room].Keys == payload.Keys + (if room in data then data[room].Keys else {})
    ensures forall k :: k in payload ==> r[room][k] == payload[k]
    ensures forall k :: room in data && k in data[room] && k !in payload ==> r[room][k] == data[room][k]
    ensures r.Keys == data.Keys + {room}
    ensures forall other :: other in data && other != room ==> r[other] == data[other]
  {
    var current := if room in data then data[room] else map[];
    data[room := current + payload]
  }

  /** Sending the same state twice is sending it once. */
  lemma {:induction false} MergedIdempotent<V>(data: map<string, map<string, V>>, room: string, payload: map<string, V>)
    ensures Merged(Merged(data, room, payload), room, payload) == Merged(data, room, payload)
  {
    var once := Merged(data, room, payload);
    assert once[room] + payload == once[room];
  }

  /** A second store under the same key replaces the first. */
  lemma {:induction false} UpdateTwice<K, W>(m: map<K, W>, k: K, a: W, b: W)
    ensures m[k := a][k := b] == m[k := b]
  {
  }

  /** Map union is associative, the right operand winning each time. */
  lemma {:induction false} UnionAssoc<K, W>(a: map<K, W>, b: map<K, W>, c: map<K, W>)
    ensures (a + b) + c == a + (b + c)
  {
  }

  /** Two updates of one room are one update with the later payload taking precedence. */
  lemma {:induction false} MergedTwice<V>(data: map<string, map<string, V>>, room: string, p: map<string, V>, q: map<string, V>)
    ensures Merged(Merged(data, room, p), room, q) == Merged(data, room, p + q)
  {
    var current := if room in data then data[room] else map[];
    var once := data[room := current + p];
    assert Merged(data, room, p) == once;
    assert Merged(once, room, q) == once[room := (current + p) + q];
    UnionAssoc(current, p, q);
    UpdateTwice(data, room, current + p, current + (p + q));
  }

  /**
   * A JSON value handed to `dict.update`.  An object merges.  An array is
   * read item by item: an item is `Some((k, v))` when it unpacks into a key
   * and a value, and `None` otherwise (a text counts as the array of its
   * one-character strings, none of which unpacks).  A scalar (null, a
   * number, a boolean) makes `update` raise at once.
   */
  datatype Payload<V> = Object(fields: map<string, V>) | Items(entries: seq<Option<(string, V)>>) | Scalar

  /**
   * `d.update(items)`: the items are stored in order, and the first item
   * that does not unpack raises.  The flag tells whether all of them did.
   */
  function UpdateItems<V>(d: map<string, V>, entries: seq<Option<(string, V)>>): (r: (map<string, V>, bool))
    ensures r.1 <==> forall i :: 0 <= i < |entries| ==> entries[i].Some?
    ensures d.Keys <= r.0.Keys
    decreases |entries|
  {
    if entries == [] then (d, true)
    else if entries[0].None? then (d, false)
    else
      var r := UpdateItems(d[entries[0].value.0 := entries[0].value.1], entries[1..]);
      assert (forall i :: 0 <= i < |entries| ==> entries[i].Some?)
        <==> forall i :: 0 <= i < |entries[1..]| ==> entries[1..][i].Some? by {
        assert forall i :: 1 <= i < |entries| ==> entries[i] == entries[1..][i - 1];
      }
      r
  }

  /** The items before the first one that does not unpack are stored; nothing after it is. */
  lemma {:induction false} UpdateItemsStops<V>(d: map<string, V>, entries: seq<Option<(string, V)>>, n: nat)
    requires n < |entries| && entries[n].None?
    requires forall i :: 0 <= i < n ==> entries[i].Some?
    ensures UpdateItems(d, entries) == (UpdateItems(d, entries[..n]).0, false)
    decreases n
  {
    if n > 0 {
      var e := entries[0].value;
      assert entries[..n][1..] == entries[1..][..n - 1];
      UpdateItemsStops(d[e.0 := e.1], entries[1..], n - 1);
    }
  }

  /** A key no stored item names keeps its value. */
  lemma {:induction false} UpdateItemsKeeps<V>(d: map<string, V>, entries: seq<Option<(string, V)>>, k: string)
    requires k in d
    requires forall i :: 0 <= i < |entries| && entries[i].Some? ==> entries[i].value.0 != k
    ensures UpdateItems(d, entries).0[k] == d[k]
    decreases |entries|
  {
    if entries != [] && entries[0].Some? {
      var e := entries[0].value;
      assert e.0 != k;
      assert forall i :: 0 <= i < |entries[1..]| && entries[1..][i].Some? ==> entries[1..][i].value.0 != k by {
        assert forall i :: 0 <= i < |entries[1..]| ==> entries[1..][i] == entries[i + 1];
      }
      UpdateItemsKeeps(d[e.0 := e.1], entries[1..], k);
    }
  }

  /** Of several items with one key, the last one stored wins. */
  lemma {:induction false} UpdateItemsLastWins<V>(d: map<string, V>, entries: seq<Option<(string, V)>>, i: nat)
    requires i < |entries| && forall j :: 0 <= j <= i ==> entries[j].Some?
    requires forall j :: i < j < |entries| && entries[j].Some? ==> entries[j].value.0 != entries[i].value.0
    ensures entries[i].value.0 in UpdateItems(d, entries).0
    ensures UpdateItems(d, entries).0[entries[i].value.0] == entries[i].value.1
    decreases i
  {
    var e := entries[0].value;
    var rest := entries[1..];
    if i == 0 {
      assert forall j :: 0 <= j < |rest| && rest[j].Some? ==> rest[j].value.0 != e.0 by {
        assert forall j :: 0 <= j < |rest| ==> rest[j] == entries[j + 1];
      }
      UpdateItemsKeeps(d[e.0 := e.1], rest, e.0);
    } else {
      assert rest[i - 1] == entries[i];
      assert forall j :: 0 <= j <= i - 1 ==> rest[j].Some? by {
        assert forall j :: 0 <= j < |rest| ==> rest[j] == entries[j + 1];
      }
      assert forall j :: i - 1 < j < |rest| && rest[j].Some? ==> rest[j].value.0 != rest[i - 1].value.0 by {
        assert forall j :: 0 <= j < |rest| ==> rest[j] == entries[j + 1];
      }
      UpdateItemsLastWins(d[e.0 := e.1], rest, i - 1);
    }
  }

  /** The room's dict before the update: `ROOM_DATA.setdefault(room, {})`. */
  function Current<V>(data: map<string, map<string, V>>, room: string): map<string, V>
  {
    if room in data then data[room] else map[]
  }

  /**
   * `ROOM_DATA.setdefault(room, {})` and then `ROOM_DATA[room].update(payload)`:
   * the new state, and whether the update finished without raising.  A
   * raise leaves the room created, holding whatever was stored before it.
   */
  function Stored<V>(data: map<string, map<string, V>>, room: string, payload: Payload<V>)
    : (r: (map<string, map<string, V>>, bool))
    ensures r.0.Keys == data.Keys + {room}
    ensures forall other :: other in data && other != room ==> r.0[other] == data[other]
    ensures payload.Object? ==> r == (Merged(data, room, payload.fields), true)
    ensures payload.Scalar? ==> !r.1 && r.0[room] == Current(data, room)
    ensures payload.Items? ==> r.1 == UpdateItems(Current(data, room), payload.entries).1
    ensures payload.Items? ==> r.0[room] == UpdateItems(Current(data, room), payload.entries).0
  {
    match payload
    case Object(fields) => (Merged(data, room, fields), true)
    case Items(entries) =>
      var u := UpdateItems(Current(data, room), entries);
      (data[room := u.0], u.1)
    case Scalar => (data[room := Current(data, room)], false)
  }

  /** The persistent state of every room: `ROOM_DATA`. */
  class RoomStore<V> {
    var roomData: map<string, map<string, V>>

    constructor ()
      ensures roomData == map[]
    {
      roomData := map[];
    }

    /** The `setdefault` and `update` step shared by the `state` message and the room POST. */
    method Update(room: string, payload: Payload<V>) returns (ok: bool)
      modifies this
      ensures (roomData, ok) == Stored(old(roomData), room, payload)
    {
      if room !in roomData {
        roomData := roomData[room := map[]];
      }
      assert roomData == old(roomData)[room := Current(old(roomData), room)];
      match payload {
        case Object(fields) =>
          UpdateTwice(old(roomData), room, Current(old(roomData), room), Current(old(roomData), room) + fields);
          roomData := roomData[room := roomData[room] + fields];
          ok := true;
        case Items(entries) =>
          var i := 0;
          ghost var start := roomData[room];
          assert start == Current(old(roomData), room);
          ok := true;
          while i < |entries| && entries[i].Some?
            invariant 0 <= i <= |entries| && room in roomData
            invariant roomData == old(roomData)[room := roomData[room]]
            invariant UpdateItems(roomData[room], entries[i..]) == UpdateItems(start, entries)
            decreases |entries| - i
          {
            var e := entries[i].value;
            assert entries[i..][1..] == entries[i + 1..];
            roomData := roomData[room := roomData[room][e.0 := e.1]];
            i := i + 1;
          }
          if i < |entries| {
            assert entries[i..][0].None?;
          } else {
            assert entries[i..] == [];
          }
          ok := i == |entries|;
        case Scalar =>
          ok := false;
      }
    }

    /**
     * A `state` message on a websocket in `room`; a missing payload counts as
     * `{}`.  When `ok` is false the raise ends the websocket handler.
     */
    method OnStateMessage(room: string, payload: Option<Payload<V>>) returns (ok: bool)
      modifies this
      ensures (roomData, ok) == Stored(old(roomData), room, if payload.Some? then payload.value else Object(map[]))
    {
      var p := if payload.Some? then payload.value else Object(map[]);
      ok := Update(room, p);
    }

    /**
     * `api_room_post`: the room name from the URL is filtered, the body
     * (`None` when it is no JSON, which raises before anything changes) is
     * stored, and the room's dict is returned.  When `ok` is false the
     * request fails.
     */
    method RoomPost(rawRoom: string, body: Option<Payload<V>>, defaultRoom: string)
      returns (room: string, ok: bool, data: map<string, V>)
      modifies this
      ensures room == SafeName(rawRoom, defaultRoom)
      ensures body.None? ==> !ok && roomData == old(roomData)
      ensures body.Some? ==> (roomData, ok) == Stored(old(roomData), room, body.value)
      ensures ok ==> room in roomData && data == roomData[room]
    {
      room := SafeName(rawRoom, defaultRoom);
      data := map[];
      if body.None? {
        ok := false;
      } else {
        ok := Update(room, body.value);
        data := roomData[room];
      }
    }
  }

  /**
   * The room a `join` message moves the websocket to.  A missing name means
   * `DEFAULT_ROOM`, which goes through the filter like any other name.
   */
  function JoinedRoom(requested: Option<string>, defaultRoom: string): (room: string)
    ensures requested.None? && Filtered(defaultRoom) != [] ==> room == Filtered(defaultRoom)
    ensures requested.None? && Filtered(defaultRoom) == [] ==> room == defaultRoom
    ensures requested.None? && IsSafe(defaultRoom) ==> room == defaultRoom
    ensures requested.Some? ==> room == SafeName(requested.value, defaultRoom)
  {
    if requested.Some? then SafeName(requested.value, defaultRoom)
    else
      FilteredKeepsSafeIf(defaultRoom);
      SafeName(defaultRoom, defaultRoom)
  }

  lemma {:induction false} FilteredKeepsSafeIf(s: string)
    ensures IsSafe(s) ==> Filtered(s) == s
  {
    if IsSafe(s) {
      FilteredKeepsSafe(s);
    }
  }
}
