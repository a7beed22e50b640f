/**
 * The string helpers of the Alias utility header: `trim`, `split`, `join`,
 * `toLower` and `toUpper`.  Strings are sequences of bytes, written here as
 * `string`.
 */
module AliasStrings {
  import opened Common

  // ---------------------------------------------------------------------
  // trim
  // ---------------------------------------------------------------------

  /** The characters `trim` removes: blank, tab, newline and carriage return. */
  predicate IsTrimSpace(c: char)
  {
    c == ' ' || c == '\t' || c == '\n' || c == '\r'
  }

  /** `find_first_not_of(" \t\n\r")`, with `|s|` standing for `npos`. */
  function FirstNonSpace(s: string): (k: nat)
    ensures k <= |s|
    ensures forall i :: 0 <= i < k ==> IsTrimSpace(s[i])
    ensures k < |s| ==> !IsTrimSpace(s[k])
  {
    if s == [] || !IsTrimSpace(s[0]) then 0 else 1 + FirstNonSpace(s[1..])
  }

  /** One past `find_last_not_of(" \t\n\r")`, and 0 when there is none. */
  function EndNonSpace(s: string): (e: nat)
    ensures e <= |s|
    ensures forall i :: e <= i < |s| ==> IsTrimSpace(s[i])
    ensures e > 0 ==> !IsTrimSpace(s[e - 1])
  {
    if s == [] || !IsTrimSpace(s[|s| - 1]) then |s| else EndNonSpace(s[..|s| - 1])
  }

  /** `trim`: the part of `s` between its leading and its trailing white space. */
  function Trim(s: string): (r: string)
    ensures |r| <= |s|
    ensures r == [] || (!IsTrimSpace(r[0]) && !IsTrimSpace(r[|r| - 1]))
    ensures r == [] <==> forall i :: 0 <= i < |s| ==> IsTrimSpace(s[i])
  {
    var start := FirstNonSpace(s);
    if start == |s| then
      []
    else
      var end := EndNonSpace(s);
      assert start < end;
      s[start..end]
  }

  /** The result is the infix of `s` that starts at `i`, with only white space around it. */
  lemma {:induction false} TrimIsInfix(s: string) returns (i: nat)
    ensures i + |Trim(s)| <= |s|
    ensures s[i..i + |Trim(s)|] == Trim(s)
    ensures forall j :: 0 <= j < i ==> IsTrimSpace(s[j])
    ensures forall j :: i + |Trim(s)| <= j < |s| ==> IsTrimSpace(s[j])
  {
    i := if FirstNonSpace(s) == |s| then 0 else FirstNonSpace(s);
  }

  /** Trimming twice is trimming once. */
  lemma {:induction false} TrimIdempotent(s: string)
    ensures Trim(Trim(s)) == Trim(s)
  {
  }

  // ---------------------------------------------------------------------
  // split
  // ---------------------------------------------------------------------

  /**
   * The fields `getline(ss, item, d)` reads from `s` until it fails: the
   * text up to each `d`, and the text after the last `d` unless it is empty.
   */
  function Fields(s: string, d: char): (r: seq<string>)
    ensures s == [] <==> r == []
    decreases |s|
  {
    if s == [] then
      []
    else
      var k := IndexOf(s, d);
      if k == |s| then [s] else [s[..k]] + Fields(s[k + 1..], d)
  }

  /** No field holds the delimiter. */
  lemma {:induction false} FieldsNoDelimiter(s: string, d: char)
    ensures forall i :: 0 <= i < |Fields(s, d)| ==> d !in Fields(s, d)[i]
    decreases |s|
  {
    if s != [] {
      var k := IndexOf(s, d);
      if k < |s| {
        FieldsAtDelimiter(s, d);
        FieldsNoDelimiter(s[k + 1..], d);
        assert d !in s[..k];
      }
    }
  }

  /**
   * `getline(ss, item, d)` on a stream positioned at `i`, with text left:
   * the characters up to the next `d` or the end, and the position after
   * the delimiter it consumed.
   */
  method GetLine(s: string, i: nat, d: char) returns (item: string, next: nat)
    requires i < |s|
    ensures i < next <= |s|
    ensures item == s[i..if next < |s| || s[|s| - 1] == d then next - 1 else next]
    ensures d !in item
    ensures next < |s| || s[|s| - 1] == d ==> s[next - 1] == d
    ensures Fields(s[i..], d) == [item] + Fields(s[next..], d)
  {
    item := "";
    var j := i;
    while j < |s| && s[j] != d
      invariant i <= j <= |s|
      invariant item == s[i..j]
      invariant forall k :: i <= k < j ==> s[k] != d
    {
      assert s[i..j + 1] == s[i..j] + [s[j]];
      item := item + [s[j]];
      j := j + 1;
    }
    next := if j < |s| then j + 1 else j;
    GetLineEnd(s, i, d, j, next);
  }

  /** What the scan of `GetLine` leaves behind once it stops at `j`. */
  lemma {:induction false} GetLineEnd(s: string, i: nat, d: char, j: nat, next: nat)
    requires i < |s| && i <= j <= |s|
    requires forall k :: i <= k < j ==> s[k] != d
    requires j < |s| ==> s[j] == d
    requires next == if j < |s| then j + 1 else j
    ensures i < next <= |s|
    ensures s[i..j] == s[i..if next < |s| || s[|s| - 1] == d then next - 1 else next]
    ensures d !in s[i..j]
    ensures next < |s| || s[|s| - 1] == d ==> s[next - 1] == d
    ensures Fields(s[i..], d) == [s[i..j]] + Fields(s[next..], d)
  {
    FieldsStep(s, d, i, j);
    if j == |s| {
      assert s[|s| - 1] != d;
    }
    forall k | 0 <= k < j - i ensures s[i..j][k] != d {
      assert s[i..j][k] == s[i + k];
    }
  }

  /** `split`: read fields with `getline` until the stream is exhausted. */
  method Split(s: string, d: char) returns (res: seq<string>)
    ensures res == Fields(s, d)
  {
    res := [];
    var i := 0;
    while i < |s|
      invariant 0 <= i <= |s|
      invariant res + Fields(s[i..], d) == Fields(s, d)
    {
      var item, next := GetLine(s, i, d);
      assert (res + [item]) + Fields(s[next..], d) == res + ([item] + Fields(s[next..], d));
      res, i := res + [item], next;
    }
    assert s[i..] == [];
  }

  /** The outer step of `Split`: the fields of `s[start..]` are the first one and those after it. */
  lemma {:induction false} FieldsStep(s: string, d: char, start: nat, i: nat)
    requires start < i <= |s| || (start == i < |s|)
    requires forall j :: start <= j < i ==> s[j] != d
    requires i < |s| ==> s[i] == d
    ensures Fields(s[start..], d) == [s[start..i]] + Fields(s[if i < |s| then i + 1 else i..], d)
  {
    var rest := s[start..];
    IndexOfIs(rest, d, i - start);
    assert rest[..i - start] == s[start..i];
    if i < |s| {
      assert rest[i - start + 1..] == s[i + 1..];
    } else {
      assert rest == s[start..i];
    }
  }

  // ---------------------------------------------------------------------
  // join
  // ---------------------------------------------------------------------

  /** The elements of `v` with `sep` between neighbours. */
  function Joined(v: seq<string>, sep: string): string
  {
    if v == [] then [] else if |v| == 1 then v[0] else v[0] + sep + Joined(v[1..], sep)
  }

  lemma {:induction false} JoinedSnoc(v: seq<string>, x: string, sep: string)
    ensures Joined(v + [x], sep) == if v == [] then x else Joined(v, sep) + sep + x
  {
    if |v| > 1 {
      assert (v + [x])[1..] == v[1..] + [x];
      JoinedSnoc(v[1..], x, sep);
    } else if |v| == 1 {
      assert (v + [x])[1..] == [x];
    }
  }

  /** `join`: write each element, preceded by `sep` from the second on. */
  method Join(v: seq<string>, sep: string) returns (r: string)
    ensures r == Joined(v, sep)
    ensures v == [] ==> r == []
  {
    r := [];
    var i := 0;
    while i < |v|
      invariant 0 <= i <= |v|
      invariant r == Joined(v[..i], sep)
    {
      if i > 0 {
        r := r + sep;
      }
      r := r + v[i];
      JoinedSnoc(v[..i], v[i], sep);
      assert v[..i + 1] == v[..i] + [v[i]];
      i := i + 1;
    }
    assert v[..i] == v;
  }

  /** Joining a first field onto further ones puts one delimiter between them. */
  lemma {:induction false} JoinedCons(x: string, f: seq<string>, sep: string)
    requires f != []
    ensures Joined([x] + f, sep) == x + sep + Joined(f, sep)
  {
    assert ([x] + f)[1..] == f;
  }

  /** The first field of a text that holds the delimiter, and the fields after it. */
  lemma {:induction false} FieldsAtDelimiter(s: string, d: char)
    requires IndexOf(s, d) < |s|
    ensures Fields(s, d) == [s[..IndexOf(s, d)]] + Fields(s[IndexOf(s, d) + 1..], d)
  {
    assert s != [] && IndexOf(s, d) != |s|;
  }

  /** A text is its part before position `k`, the character there, and the rest. */
  lemma {:induction false} Rejoin(s: string, k: nat)
    requires k < |s|
    ensures s == s[..k] + [s[k]] + s[k + 1..]
  {
  }

  /** Splitting and joining with the same delimiter gives the text back... */
  lemma {:induction false} JoinFields(s: string, d: char)
    requires s == [] || s[|s| - 1] != d
    ensures Joined(Fields(s, d), [d]) == s
    decreases |s|
  {
    if s != [] {
      var k := IndexOf(s, d);
      if k < |s| {
        var rest := s[k + 1..];
        assert rest != [] && rest[|rest| - 1] == s[|s| - 1];
        FieldsAtDelimiter(s, d);
        JoinFields(rest, d);
        JoinedCons(s[..k], Fields(rest, d), [d]);
        Rejoin(s, k);
      }
    }
  }

  /** ... except for a final delimiter, which `getline` swallows. */
  lemma {:induction false} JoinFieldsTrailing(s: string, d: char)
    requires s != [] && s[|s| - 1] == d
    ensures Joined(Fields(s, d), [d]) + [d] == s
    decreases |s|
  {
    var k := IndexOf(s, d);
    var rest := s[k + 1..];
    FieldsAtDelimiter(s, d);
    Rejoin(s, k);
    if rest == [] {
      assert Fields(s, d) == [s[..k]];
    } else {
      assert rest[|rest| - 1] == d;
      JoinFieldsTrailing(rest, d);
      JoinedCons(s[..k], Fields(rest, d), [d]);
    }
  }

  // ---------------------------------------------------------------------
  // toLower / toUpper
  // ---------------------------------------------------------------------

  predicate IsUpper(c: char) { 'A' <= c <= 'Z' }

  predicate IsLower(c: char) { 'a' <= c <= 'z' }

  /** `toLower`: `::tolower` over a copy, position by position; only `A`..`Z` change. */
  method ToLower(s: string) returns (t: string)
    ensures |t| == |s|
    ensures forall i :: 0 <= i < |s| && IsUpper(s[i]) ==> t[i] as int == s[i] as int + 32
    ensures forall i :: 0 <= i < |s| && !IsUpper(s[i]) ==> t[i] == s[i]
    ensures forall i :: 0 <= i < |t| ==> !IsUpper(t[i])
  {
    t := s;
    var i := 0;
    while i < |t|
      invariant 0 <= i <= |t| == |s|
      invariant forall j :: 0 <= j < i && IsUpper(s[j]) ==> t[j] as int == s[j] as int + 32
      invariant forall j :: 0 <= j < i && !IsUpper(s[j]) ==> t[j] == s[j]
      invariant forall j :: i <= j < |t| ==> t[j] == s[j]
    {
      if IsUpper(t[i]) {
        t := t[i := (t[i] as int + 32) as char];
      }
      i := i + 1;
    }
  }

  /** `toUpper`: `::toupper` over a copy; only `a`..`z` change. */
  method ToUpper(s: string) returns (t: string)
    ensures |t| == |s|
    ensures forall i :: 0 <= i < |s| && IsLower(s[i]) ==> t[i] as int == s[i] as int - 32
    ensures forall i :: 0 <= i < |s| && !IsLower(s[i]) ==> t[i] == s[i]
    ensures forall i :: 0 <= i < |t| ==> !IsLower(t[i])
  {
    t := s;
    var i := 0;
    while i < |t|
      invariant 0 <= i <= |t| == |s|
      invariant forall j :: 0 <= j < i && IsLower(s[j]) ==> t[j] as int == s[j] as int - 32
      invariant forall j :: 0 <= j < i && !IsLower(s[j]) ==> t[j] == s[j]
      invariant forall j :: i <= j < |t| ==> t[j] == s[j]
    {
      if IsLower(t[i]) {
        t := t[i := (t[i] as int - 32) as char];
      }
      i := i + 1;
    }
  }
}
