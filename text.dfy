/** The Python 2 string operations the adapter relies on, on `seq<char>`. */
module Text {
  import opened Wrappers

  /** The characters Python 2's `str.strip()` removes: space and `\t \n \v \f \r`. */
  predicate IsSpace(c: char) {
    c == ' ' || '\t' <= c <= '\r'
  }

  predicate IsBlank(s: string) {
    forall i :: 0 <= i < |s| ==> IsSpace(s[i])
  }

  function TrimLeft(s: string): (r: string)
    ensures |r| <= |s| && r == s[|s| - |r|..]
    ensures forall i :: 0 <= i < |s| - |r| ==> IsSpace(s[i])
    ensures r != [] ==> !IsSpace(r[0])
  {
    if s != [] && IsSpace(s[0]) then TrimLeft(s[1..]) else s
  }

  function TrimRight(s: string): (r: string)
    ensures |r| <= |s| && r == s[..|r|]
    ensures forall i :: |r| <= i < |s| ==> IsSpace(s[i])
    ensures r != [] ==> !IsSpace(r[|r| - 1])
  {
    if s != [] && IsSpace(s[|s| - 1]) then TrimRight(s[..|s| - 1]) else s
  }

  /** `str.strip()`: the text without its leading and trailing whitespace. */
  function Strip(s: string): (r: string)
    ensures |r| <= |s|
    ensures r != [] ==> !IsSpace(r[0]) && !IsSpace(r[|r| - 1])
    ensures r == [] <==> IsBlank(s)
  {
    var t := TrimLeft(s);
    assert t != [] ==> s[|s| - |t|] == t[0];
    TrimRight(t)
  }

  /** A text that neither begins nor ends with whitespace is its own stripped form. */
  lemma StripClean(s: string)
    requires s != [] ==> !IsSpace(s[0]) && !IsSpace(s[|s| - 1])
    ensures Strip(s) == s
  {
  }

  /** Stripping twice, as `does_template_exist` does, is stripping once. */
  lemma StripIdempotent(s: string)
    ensures Strip(Strip(s)) == Strip(s)
  {
    StripClean(Strip(s));
  }

  /** `r` is the slice of `s` at `a`, with only whitespace before and after it. */
  predicate SliceBetweenBlanks(s: string, a: int, r: string) {
    0 <= a && a + |r| <= |s| && r == s[a..a + |r|] && IsBlank(s[..a]) && IsBlank(s[a + |r|..])
  }

  /** `strip()` keeps the slice of `s` between its leading and its trailing whitespace. */
  lemma StripIsSlice(s: string)
    ensures exists a :: SliceBetweenBlanks(s, a, Strip(s))
  {
    var t := TrimLeft(s);
    var r := TrimRight(t);
    var a := |s| - |t|;
    assert r == Strip(s);
    assert t == s[a..|s|];
    SliceParts(s, a, |s|, |r|);
    BlankUpTo(s, a);
    BlankFrom(t, |r|);
    assert r == s[a..a + |r|];
    assert s[a + |r|..] == t[|r|..];
    assert SliceBetweenBlanks(s, a, r);
  }

  /** A text that is whitespace before position `k` has a blank head. */
  lemma BlankUpTo(s: string, k: nat)
    requires k <= |s| && forall i :: 0 <= i < k ==> IsSpace(s[i])
    ensures IsBlank(s[..k])
  {
  }

  /** A text that is whitespace from position `k` on has a blank tail. */
  lemma BlankFrom(t: string, k: nat)
    requires k <= |t| && forall i :: k <= i < |t| ==> IsSpace(t[i])
    ensures IsBlank(t[k..])
  {
    assert forall i :: 0 <= i < |t| - k ==> t[k..][i] == t[k + i];
  }

  /** `TrimRight` drops exactly a trailing run of whitespace. */
  lemma TrimRightSkips(rest: string, ws: string)
    requires IsBlank(ws) && (rest != [] ==> !IsSpace(rest[|rest| - 1]))
    ensures TrimRight(rest + ws) == rest
  {
    var s := rest + ws;
    var r := TrimRight(s);
    assert forall i :: 0 <= i < |ws| ==> s[|rest| + i] == ws[i];
    assert rest != [] ==> s[|rest| - 1] == rest[|rest| - 1];
    assert |r| == |rest|;
    assert s[..|rest|] == rest;
  }

  /** Whitespace, then a text that neither begins nor ends with whitespace, then whitespace, strips to that text. */
  lemma StripPadded(lead: string, core: string, trail: string)
    requires IsBlank(lead) && IsBlank(trail)
    requires core != [] ==> !IsSpace(core[0]) && !IsSpace(core[|core| - 1])
    ensures Strip(lead + core + trail) == core
  {
    var s := lead + core + trail;
    if core == [] {
      assert s == lead + trail;
      assert IsBlank(s);
    } else {
      assert s == lead + (core + trail);
      assert (core + trail)[0] == core[0];
      TrimLeftSkips(lead, core + trail);
      TrimRightSkips(core, trail);
    }
  }

  function LowerChar(c: char): char {
    if 'A' <= c <= 'Z' then (c as int + 32) as char else c
  }

  /** `str.lower()` on ASCII letters. */
  function Lower(s: string): (r: string)
    ensures |r| == |s|
    ensures forall i :: 0 <= i < |s| ==> r[i] == LowerChar(s[i])
  {
    if s == [] then [] else [LowerChar(s[0])] + Lower(s[1..])
  }

  predicate StartsWith(s: string, prefix: string) {
    |prefix| <= |s| && s[..|prefix|] == prefix
  }

  predicate IsDigit(c: char) {
    '0' <= c <= '9'
  }

  predicate AllDigits(s: string) {
    forall i :: 0 <= i < |s| ==> IsDigit(s[i])
  }

  /** The decimal value of a run of digits, most significant first. */
  function DigitsValue(s: string): nat
    requires AllDigits(s)
  {
    if s == [] then 0 else DigitsValue(s[..|s| - 1]) * 10 + (s[|s| - 1] as int - '0' as int)
  }

  /**
    * Python 2's `int(text)`: surrounding whitespace is ignored, then one
    * optional sign, then optional whitespace (the C `strtoul` under `int`
    * skips it again after the sign), then one or more decimal digits;
    * anything else is a `ValueError`, written here as `None`.
    */
  function ParseInt(s: string): Option<int> {
    ReadNumber(Strip(s))
  }

  /** `int` on a stripped text. */
  function ReadNumber(t: string): Option<int> {
    if t != [] && (t[0] == '-' || t[0] == '+') then
      var u := TrimLeft(t[1..]);
      if u != [] && AllDigits(u) then
        var v: int := DigitsValue(u);
        Some(if t[0] == '-' then -v else v)
      else
        None
    else if t != [] && AllDigits(t) then
      Some(DigitsValue(t))
    else
      None
  }

  function DigitChar(d: nat): char
    requires d < 10
  {
    ('0' as int + d) as char
  }

  /** The decimal digits of `n`, without leading zeros. */
  function ShowNat(n: nat): (s: string)
    ensures s != [] && AllDigits(s)
    ensures DigitsValue(s) == n
  {
    if n < 10 then [DigitChar(n)]
    else
      var s := ShowNat(n / 10) + [DigitChar(n % 10)];
      assert s[..|s| - 1] == ShowNat(n / 10);
      s
  }

  /** `str(n)` for an integer. */
  function ShowInt(n: int): string {
    if n < 0 then "-" + ShowNat(-n) else ShowNat(n)
  }

  /** `int` reads back every integer that `str` writes. */
  lemma ParseShowInt(n: int)
    ensures ParseInt(ShowInt(n)) == Some(n)
  {
    var s := ShowInt(n);
    StripClean(s);
    if n < 0 {
      assert s[1..] == ShowNat(-n);
      TrimLeftKeeps(ShowNat(-n));
    } else {
      assert !(s[0] == '-' || s[0] == '+');
    }
  }

  /** A text that does not begin with whitespace is its own `TrimLeft`. */
  lemma TrimLeftKeeps(s: string)
    requires s != [] ==> !IsSpace(s[0])
    ensures TrimLeft(s) == s
  {
  }

  /** `TrimLeft` drops exactly a leading run of whitespace. */
  lemma TrimLeftSkips(ws: string, rest: string)
    requires IsBlank(ws) && (rest != [] ==> !IsSpace(rest[0]))
    ensures TrimLeft(ws + rest) == rest
  {
    var s := ws + rest;
    var r := TrimLeft(s);
    assert forall i :: 0 <= i < |ws| ==> s[i] == ws[i];
    assert rest != [] ==> s[|ws|] == rest[0];
    assert |s| - |r| == |ws|;
    assert s[|ws|..] == rest;
  }

  /** Whitespace between the sign and the digits is allowed: `int("- 5")` is `-5`. */
  lemma ParseIntSpaceAfterSign(sign: char, ws: string, digits: string)
    requires sign == '-' || sign == '+'
    requires IsBlank(ws) && digits != [] && AllDigits(digits)
    ensures ParseInt([sign] + ws + digits) ==
      Some(if sign == '-' then -(DigitsValue(digits) as int) else DigitsValue(digits) as int)
  {
    var s := [sign] + ws + digits;
    assert s[0] == sign && s[|s| - 1] == digits[|digits| - 1];
    StripClean(s);
    assert s[1..] == ws + digits;
    TrimLeftSkips(ws, digits);
    ReadSigned(s, digits);
  }

  /** A text made of a sign, whitespace and digits reads as the signed digits. */
  lemma ReadSigned(t: string, digits: string)
    requires t != [] && (t[0] == '-' || t[0] == '+')
    requires TrimLeft(t[1..]) == digits && digits != [] && AllDigits(digits)
    ensures ReadNumber(t) == Some(if t[0] == '-' then -(DigitsValue(digits) as int) else DigitsValue(digits) as int)
  {
  }

  /**
    * Text that is not a number is refused by `int`: blank text, and text whose
    * stripped form starts with something other than a sign or a digit (a word).
    */
  lemma ParseIntRefusesWords(s: string)
    requires var t := Strip(s); t == [] || (!IsDigit(t[0]) && t[0] != '-' && t[0] != '+')
    ensures ParseInt(s) == None
  {
  }

  /**
    * The text `int` accepts, written out as a grammar: one or more digits,
    * or a sign followed by optional whitespace and one or more digits; `n`
    * is the value of the digits, negated after a minus sign.
    */
  ghost predicate NumberCore(t: string, n: int) {
    || (t != [] && AllDigits(t) && n == DigitsValue(t))
    || (exists c :: SignedAt(t, c, n))
  }

  /** `t` is a sign, whitespace up to position `c`, then one or more digits, and `n` their signed value. */
  predicate SignedAt(t: string, c: int, n: int) {
    && 1 <= c < |t| && (t[0] == '-' || t[0] == '+') && IsBlank(t[1..c]) && AllDigits(t[c..])
    && n == (if t[0] == '-' then -(DigitsValue(t[c..]) as int) else DigitsValue(t[c..]) as int)
  }

  /** `s` is whitespace, a number in the grammar of `NumberCore` with value `n`, then whitespace. */
  ghost predicate IntegerText(s: string, n: int) {
    exists a, d :: 0 <= a <= d <= |s| && IsBlank(s[..a]) && IsBlank(s[d..]) && NumberCore(s[a..d], n)
  }

  /** `int` accepts exactly the texts of the grammar, with their value; so "12abc", "1 2", "-" and "+-5" raise. */
  lemma ParseIntIffIntegerText(s: string, n: int)
    ensures ParseInt(s) == Some(n) <==> IntegerText(s, n)
  {
    if ParseInt(s) == Some(n) {
      ParsedIsText(s, n);
    }
    if IntegerText(s, n) {
      var a, d :| 0 <= a <= d <= |s| && IsBlank(s[..a]) && IsBlank(s[d..]) && NumberCore(s[a..d], n);
      TextIsParsed(s, n, a, d);
    }
  }

  /** An accepted text is whitespace around a number of the grammar. */
  lemma ParsedIsText(s: string, n: int)
    requires ParseInt(s) == Some(n)
    ensures IntegerText(s, n)
  {
    var t := Strip(s);
    StripIsSlice(s);
    var a :| SliceBetweenBlanks(s, a, t);
    ReadIsCore(t, n);
    assert NumberCore(s[a..a + |t|], n);
  }

  /** What `ReadNumber` accepts is a number of the grammar. */
  lemma ReadIsCore(t: string, n: int)
    requires ReadNumber(t) == Some(n)
    ensures NumberCore(t, n)
  {
    if t != [] && (t[0] == '-' || t[0] == '+') {
      var u := TrimLeft(t[1..]);
      var c := |t| - |u|;
      assert t[c..] == u;
      assert IsBlank(t[1..c]) by {
        assert forall i :: 1 <= i < c ==> t[i] == t[1..][i - 1];
      }
      assert SignedAt(t, c, n);
    }
  }

  /** A number of the grammar, with whitespace around it, is accepted with its value. */
  lemma TextIsParsed(s: string, n: int, a: nat, d: nat)
    requires a <= d <= |s| && IsBlank(s[..a]) && IsBlank(s[d..]) && NumberCore(s[a..d], n)
    ensures ParseInt(s) == Some(n)
  {
    var t := s[a..d];
    assert s == s[..a] + t + s[d..];
    CoreEnds(t, n);
    StripPadded(s[..a], t, s[d..]);
    CoreIsRead(t, n);
  }

  /** A number of the grammar begins with a sign or a digit and ends with a digit. */
  lemma CoreEnds(t: string, n: int)
    requires NumberCore(t, n)
    ensures t != [] && !IsSpace(t[0]) && !IsSpace(t[|t| - 1])
  {
    if !(t != [] && AllDigits(t) && n == DigitsValue(t)) {
      var c :| SignedAt(t, c, n);
      assert t[|t| - 1] == t[c..][|t| - 1 - c];
    }
  }

  /** A sign, whitespace up to `c`, then digits: `ReadNumber` reads the signed digits. */
  lemma SignedIsRead(t: string, c: nat)
    requires 1 <= c < |t| && (t[0] == '-' || t[0] == '+') && IsBlank(t[1..c]) && AllDigits(t[c..])
    ensures ReadNumber(t) == Some(if t[0] == '-' then -(DigitsValue(t[c..]) as int) else DigitsValue(t[c..]) as int)
  {
    assert t[1..] == t[1..c] + t[c..];
    assert t[c..][0] == t[c];
    TrimLeftSkips(t[1..c], t[c..]);
    ReadSigned(t, t[c..]);
  }

  /** `ReadNumber` accepts a number of the grammar with its value. */
  lemma CoreIsRead(t: string, n: int)
    requires NumberCore(t, n)
    ensures ReadNumber(t) == Some(n)
  {
    if !(t != [] && AllDigits(t) && n == DigitsValue(t)) {
      var c :| SignedAt(t, c, n);
      SignedIsRead(t, c);
    } else {
      assert IsDigit(t[0]);
    }
  }

  /** Python 2's `text.translate(None, '{}')`: every brace deleted. */
  function DeleteBraces(s: string): (r: string)
    ensures |r| <= |s|
    ensures forall i :: 0 <= i < |r| ==> r[i] != '{' && r[i] != '}'
  {
    if s == [] then []
    else (if s[0] == '{' || s[0] == '}' then [] else [s[0]]) + DeleteBraces(s[1..])
  }

  predicate NoBraces(s: string) {
    forall i :: 0 <= i < |s| ==> s[i] != '{' && s[i] != '}'
  }

  /** Deleting braces changes nothing in a text that has none. */
  lemma {:induction false} DeleteBracesKeepsOthers(s: string)
    requires NoBraces(s)
    ensures DeleteBraces(s) == s
  {
    if s != [] {
      DeleteBracesKeepsOthers(s[1..]);
    }
  }

  /** Braces are deleted piecewise: the rest of the text keeps its order. */
  lemma {:induction false} DeleteBracesAppend(a: string, b: string)
    ensures DeleteBraces(a + b) == DeleteBraces(a) + DeleteBraces(b)
  {
    if a == [] {
      assert a + b == b;
    } else {
      assert (a + b)[1..] == a[1..] + b;
      DeleteBracesAppend(a[1..], b);
    }
  }

  /** One character: a brace is deleted, and any other character is kept. */
  lemma DeleteBracesChar(c: char)
    ensures DeleteBraces([c]) == (if c == '{' || c == '}' then [] else [c])
  {
    assert [c][1..] == [];
  }

  /** A brace-free text wrapped in braces, as PowerShell prints a one-element array, comes back unwrapped. */
  lemma DeleteBracesUnwraps(s: string)
    requires NoBraces(s)
    ensures DeleteBraces("{" + s + "}") == s
  {
    DeleteBracesAppend("{" + s, "}");
    DeleteBracesAppend("{", s);
    DeleteBracesChar('{');
    DeleteBracesChar('}');
    DeleteBracesKeepsOthers(s);
  }

  /** Deleting the braces a second time changes nothing. */
  lemma DeleteBracesIdempotent(s: string)
    ensures DeleteBraces(DeleteBraces(s)) == DeleteBraces(s)
  {
    DeleteBracesKeepsOthers(DeleteBraces(s));
  }

  /////////////////////////////////////////////////////////////////////////////
  // The pattern [0-9]+(?:.[0-9]+){3} of `get_ip_address`, whose `.` is not
  // escaped and so stands for any character except a newline.

  /** `s[i..]` begins with `[0-9]+` followed by `groups` repetitions of `.[0-9]+`. */
  predicate DigitsThen(s: string, i: nat, groups: nat)
    decreases |s| - i, 1
  {
    i < |s| && IsDigit(s[i]) && (groups == 0 || RunThen(s, i + 1, groups))
  }

  /** After at least one digit, position `j` either extends the run or is the separator. */
  predicate RunThen(s: string, j: nat, groups: nat)
    requires groups > 0
    decreases |s| - j, 0
  {
    j < |s| &&
    ((IsDigit(s[j]) && RunThen(s, j + 1, groups)) ||
     (s[j] != '\n' && DigitsThen(s, j + 1, groups - 1)))
  }

  /** `re.findall(r'[0-9]+(?:.[0-9]+){3}', s)` is non-empty. */
  predicate FindsAddress(s: string) {
    exists i :: 0 <= i < |s| && DigitsThen(s, i, 3)
  }

  /**
    * `w` is, as a whole, `[0-9]+` followed by `groups` repetitions of
    * `.[0-9]+`: digit runs joined by single characters other than a newline.
    */
  ghost predicate Joined(w: string, groups: nat)
    decreases groups, 1
  {
    if groups == 0 then w != [] && AllDigits(w)
    else exists k :: JoinedAt(w, k, groups)
  }

  /** `w[..k]` is the first digit run, `w[k]` its separator, and the rest is joined runs of one group fewer. */
  ghost predicate JoinedAt(w: string, k: int, groups: nat)
    requires groups > 0
    decreases groups, 0
  {
    0 < k && k + 1 < |w| && AllDigits(w[..k]) && w[k] != '\n' && Joined(w[k + 1..], groups - 1)
  }

  /** The characters `s[a..b]` are digits, position by position. */
  predicate DigitsBetween(s: string, a: nat, b: nat)
    requires a <= b <= |s|
  {
    forall m :: a <= m < b ==> IsDigit(s[m])
  }

  lemma SliceDigits(s: string, a: nat, b: nat)
    requires a <= b <= |s|
    ensures AllDigits(s[a..b]) <==> DigitsBetween(s, a, b)
  {
    assert forall m :: a <= m < b ==> s[a..b][m - a] == s[m];
  }

  /** A match starting at `i` spans some slice `s[i..e]` that is joined digit runs. */
  lemma {:induction false} DigitsThenJoined(s: string, i: nat, groups: nat)
    requires DigitsThen(s, i, groups)
    ensures exists e :: i < e <= |s| && Joined(s[i..e], groups)
    decreases |s| - i, 1
  {
    if groups == 0 {
      assert Joined(s[i..i + 1], 0);
    } else {
      RunThenJoined(s, i, i + 1, groups);
    }
  }

  /** A run of digits `s[start..j]` that `RunThen` continues ends in joined digit runs. */
  lemma {:induction false} RunThenJoined(s: string, start: nat, j: nat, groups: nat)
    requires groups > 0 && start < j <= |s| && DigitsBetween(s, start, j)
    requires RunThen(s, j, groups)
    ensures exists e :: j < e <= |s| && Joined(s[start..e], groups)
    decreases |s| - j, 0
  {
    if IsDigit(s[j]) && RunThen(s, j + 1, groups) {
      RunThenJoined(s, start, j + 1, groups);
    } else {
      DigitsThenJoined(s, j + 1, groups - 1);
      var e :| j + 1 < e <= |s| && Joined(s[j + 1..e], groups - 1);
      var w := s[start..e];
      var k := j - start;
      assert w[..k] == s[start..j] && w[k] == s[j] && w[k + 1..] == s[j + 1..e];
      SliceDigits(s, start, j);
      assert JoinedAt(w, k, groups);
    }
  }

  /** A digit run `s[a..b]` in front of a `RunThen` position is part of the same match. */
  lemma {:induction false} RunBack(s: string, a: nat, b: nat, groups: nat)
    requires groups > 0 && a <= b <= |s| && DigitsBetween(s, a, b)
    requires RunThen(s, b, groups)
    ensures RunThen(s, a, groups)
    decreases b - a
  {
    if a < b {
      RunBack(s, a + 1, b, groups);
    }
  }

  lemma SliceParts(s: string, a: nat, b: nat, c: nat)
    requires a + c <= b <= |s|
    ensures s[a..b][c..] == s[a + c..b] && s[a..b][..c] == s[a..a + c]
  {
  }

  /** Joined digit runs found as the slice `s[i..j]` are a match starting at `i`. */
  lemma {:induction false} JoinedDigitsThen(s: string, i: nat, j: nat, groups: nat)
    requires i < j <= |s| && Joined(s[i..j], groups)
    ensures DigitsThen(s, i, groups)
    decreases groups
  {
    var w := s[i..j];
    assert s[i] == w[0];
    if groups > 0 {
      var k :| JoinedAt(w, k, groups);
      SliceParts(s, i, j, k + 1);
      JoinedDigitsThen(s, i + k + 1, j, groups - 1);
      RunSeparator(s, i + k, groups);
      SliceParts(s, i, j, k);
      SliceDigits(s, i, i + k);
      RunBack(s, i + 1, i + k, groups);
    }
  }

  /** A separator other than a newline, followed by a match of one group fewer, ends a run. */
  lemma RunSeparator(s: string, j: nat, groups: nat)
    requires groups > 0 && j < |s| && s[j] != '\n'
    requires DigitsThen(s, j + 1, groups - 1)
    ensures RunThen(s, j, groups)
  {
  }

  /**
    * `re.findall` finds something exactly when the text holds four digit runs
    * joined by three single characters, none of them a newline.
    */
  lemma FindsAddressIffJoined(s: string)
    ensures FindsAddress(s) <==> exists i, j :: 0 <= i < j <= |s| && Joined(s[i..j], 3)
  {
    if FindsAddress(s) {
      var i :| 0 <= i < |s| && DigitsThen(s, i, 3);
      DigitsThenJoined(s, i, 3);
    }
    if exists i, j :: 0 <= i < j <= |s| && Joined(s[i..j], 3) {
      var i, j :| 0 <= i < j <= |s| && Joined(s[i..j], 3);
      JoinedDigitsThen(s, i, j, 3);
    }
  }

  /** A dotted quad is found. */
  lemma FindsDottedQuad()
    ensures FindsAddress("10.0.0.1")
  {
    var s := "10.0.0.1";
    assert DigitsThen(s, 7, 0);
    assert DigitsThen(s, 5, 1);
    assert DigitsThen(s, 3, 2);
    assert RunThen(s, 2, 3);
    assert DigitsThen(s, 0, 3);
  }

  /** Because the dot is unescaped, any separators are accepted, letters included. */
  lemma FindsAnySeparator()
    ensures FindsAddress("1a2b3c4")
  {
    var s := "1a2b3c4";
    assert DigitsThen(s, 6, 0);
    assert DigitsThen(s, 4, 1);
    assert DigitsThen(s, 2, 2);
    assert DigitsThen(s, 0, 3);
  }

  /** A match needs at least seven characters: four digits and three separators. */
  lemma {:induction false} DigitsThenLength(s: string, i: nat, groups: nat)
    requires DigitsThen(s, i, groups)
    ensures i + 2 * groups + 1 <= |s|
    decreases |s| - i, 1
  {
    if groups > 0 {
      RunThenLength(s, i + 1, groups);
    }
  }

  lemma {:induction false} RunThenLength(s: string, j: nat, groups: nat)
    requires groups > 0 && RunThen(s, j, groups)
    ensures j + 2 * groups <= |s|
    decreases |s| - j, 0
  {
    if IsDigit(s[j]) && RunThen(s, j + 1, groups) {
      RunThenLength(s, j + 1, groups);
    } else {
      DigitsThenLength(s, j + 1, groups - 1);
    }
  }

  /** So a text shorter than seven characters never holds an address. */
  lemma ShortTextHasNoAddress(s: string)
    requires |s| < 7
    ensures !FindsAddress(s)
  {
    forall i | 0 <= i < |s| && DigitsThen(s, i, 3)
      ensures false
    {
      DigitsThenLength(s, i, 3);
    }
  }
}
