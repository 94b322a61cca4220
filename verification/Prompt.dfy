/** Untrusted text in prompts: entity-escaping within a size bound, and cutting UTF-8 on a rune boundary. */
module Prompt {

  // ---- escaping ----

  function Entity(c: char): string {
    match c
    case '&' => "&amp;"
    case '<' => "&lt;"
    case '>' => "&gt;"
    case _ => [c]
  }

  function EscapeAll(s: string): string {
    if s == "" then "" else Entity(s[0]) + EscapeAll(s[1..])
  }

  /** Reads the three entities back, and nothing else. */
  function Unescape(s: string): string
    decreases |s|
  {
    if s == "" then ""
    else if "&amp;" <= s then "&" + Unescape(s[5..])
    else if "&lt;" <= s then "<" + Unescape(s[4..])
    else if "&gt;" <= s then ">" + Unescape(s[4..])
    else [s[0]] + Unescape(s[1..])
  }

  lemma UnescapeEntity(c: char, rest: string)
    ensures Unescape(Entity(c) + rest) == [c] + Unescape(rest)
  {
    var s := Entity(c) + rest;
    assert s[|Entity(c)|..] == rest;
    if c == '>' {
      assert s[1] == 'g';
    }
    if c == '<' {
      assert s[1] == 'l';
    }
  }

  /** Escaping loses nothing. */
  lemma {:induction false} EscapeReadsBack(s: string)
    ensures Unescape(EscapeAll(s)) == s
  {
    if s != "" {
      UnescapeEntity(s[0], EscapeAll(s[1..]));
      EscapeReadsBack(s[1..]);
    }
  }

  /** No raw angle bracket, and every ampersand opens one of the three entities. */
  predicate Inert(s: string) {
    && (forall i :: 0 <= i < |s| ==> s[i] != '<' && s[i] != '>')
    && (forall i :: 0 <= i < |s| && s[i] == '&' ==> OpensEntity(s[i..]))
  }

  predicate OpensEntity(s: string) {
    "&amp;" <= s || "&lt;" <= s || "&gt;" <= s
  }

  lemma EntityInert(c: char, rest: string)
    requires Inert(rest)
    ensures Inert(Entity(c) + rest)
  {
    var e := Entity(c);
    var s := e + rest;
    forall i | 0 <= i < |s| ensures s[i] != '<' && s[i] != '>' && (s[i] == '&' ==> OpensEntity(s[i..])) {
      if i < |e| {
        if i == 0 { assert e <= s[i..]; }
      } else {
        assert s[i] == rest[i - |e|] && s[i..] == rest[i - |e|..];
      }
    }
  }

  lemma {:induction false} EscapeIsInert(s: string)
    ensures Inert(EscapeAll(s))
  {
    if s != "" {
      EscapeIsInert(s[1..]);
      EntityInert(s[0], EscapeAll(s[1..]));
    }
  }

  lemma EscapeOne(c: char, s: string)
    ensures EscapeAll([c] + s) == Entity(c) + EscapeAll(s)
  {
    assert ([c] + s)[1..] == s;
  }

  /** Wherever it stands, an angle bracket or an ampersand becomes its HTML entity and any other character stays. */
  lemma EscapesAsHtml(a: string, c: char, b: string)
    ensures EscapeAll(a + [c] + b) == EscapeAll(a) +
      (if c == '<' then "&lt;" else if c == '>' then "&gt;" else if c == '&' then "&amp;" else [c]) + EscapeAll(b)
  {
    hide EscapeAll;
    assert a + [c] + b == a + ([c] + b);
    EscapeJoin(a, [c] + b);
    EscapeOne(c, b);
    assert EscapeAll(a) + (Entity(c) + EscapeAll(b)) == EscapeAll(a) + Entity(c) + EscapeAll(b);
  }

  // ---- sizes ----

  /** The bytes of a rune in UTF-8. */
  function RuneLen(c: char): nat {
    if c as int < 0x80 then 1 else if c as int < 0x800 then 2 else if c as int < 0x10000 then 3 else 4
  }

  /** The size of a text: its bytes, or its characters. */
  datatype Unit = Bytes | Characters

  function Width(unit: Unit, c: char): (n: nat)
    ensures n > 0 && (c as int < 0x80 ==> n == 1)
  {
    if unit.Bytes? then RuneLen(c) else 1
  }

  function SizeOf(unit: Unit, s: string): nat {
    if s == "" then 0 else Width(unit, s[0]) + SizeOf(unit, s[1..])
  }

  /** What a rune adds to the escaped text, as the loop counts it. */
  function Cost(unit: Unit, c: char): nat {
    match c
    case '&' => 5
    case '<' => 4
    case '>' => 4
    case _ => Width(unit, c)
  }

  lemma {:induction false} SizeJoin(unit: Unit, a: string, b: string)
    ensures SizeOf(unit, a + b) == SizeOf(unit, a) + SizeOf(unit, b)
  {
    if a == "" {
      assert a + b == b;
    } else {
      assert (a + b)[1..] == a[1..] + b;
      SizeJoin(unit, a[1..], b);
    }
  }

  lemma CostIsSize(unit: Unit, c: char)
    ensures Cost(unit, c) == SizeOf(unit, Entity(c))
  {
    var e := Entity(c);
    if |e| == 5 {
      assert e[1..] == "amp;" && "amp;"[1..] == "mp;" && "mp;"[1..] == "p;" && "p;"[1..] == ";" && ";"[1..] == "";
    } else if |e| == 4 {
      assert e[1..] == (if c == '<' then "lt;" else "gt;");
      assert "lt;"[1..] == "t;" && "gt;"[1..] == "t;" && "t;"[1..] == ";" && ";"[1..] == "";
    }
  }

  /** The size of a text once escaped. */
  function EscapedSize(unit: Unit, s: string): nat {
    SizeOf(unit, EscapeAll(s))
  }

  lemma {:induction false} EscapeJoin(a: string, b: string)
    ensures EscapeAll(a + b) == EscapeAll(a) + EscapeAll(b)
  {
    if a == "" {
      assert a + b == b;
    } else {
      assert (a + b)[1..] == a[1..] + b;
      EscapeJoin(a[1..], b);
    }
  }

  lemma EscapedSizeJoin(unit: Unit, a: string, b: string)
    ensures EscapedSize(unit, a + b) == EscapedSize(unit, a) + EscapedSize(unit, b)
  {
    hide EscapeAll, SizeOf;
    EscapeJoin(a, b);
    SizeJoin(unit, EscapeAll(a), EscapeAll(b));
  }

  lemma EscapedSizeMore(unit: Unit, s: string, i: nat)
    requires i < |s|
    ensures EscapedSize(unit, s[..i + 1]) == EscapedSize(unit, s[..i]) + Cost(unit, s[i])
  {
    assert s[..i + 1] == s[..i] + [s[i]];
    EscapedSizeJoin(unit, s[..i], [s[i]]);
    assert EscapeAll([s[i]]) == Entity(s[i]);
    CostIsSize(unit, s[i]);
  }

  // ---- trimming ----

  /** unicode.IsSpace. */
  predicate IsSpace(c: char) {
    var n := c as int;
    9 <= n <= 13 || n == 32 || n == 0x85 || n == 0xA0 || n == 0x1680 || 0x2000 <= n <= 0x200A ||
    n == 0x2028 || n == 0x2029 || n == 0x202F || n == 0x205F || n == 0x3000
  }

  function TrimLeft(s: string): (r: string)
    ensures |r| <= |s| && r == s[|s| - |r|..] && forall i :: 0 <= i < |s| - |r| ==> IsSpace(s[i])
    ensures r == "" || !IsSpace(r[0])
  {
    if s != "" && IsSpace(s[0]) then TrimLeft(s[1..]) else s
  }

  function TrimRight(s: string): (r: string)
    ensures r <= s && forall i :: |r| <= i < |s| ==> IsSpace(s[i])
    ensures r == "" || !IsSpace(r[|r| - 1])
  {
    if s != "" && IsSpace(s[|s| - 1]) then TrimRight(s[..|s| - 1]) else s
  }

  function Trim(s: string): string {
    TrimRight(TrimLeft(s))
  }

  lemma TrimCosts(unit: Unit, s: string)
    ensures EscapedSize(unit, Trim(s)) <= EscapedSize(unit, s)
  {
    hide EscapedSize, TrimLeft, TrimRight;
    var l := TrimLeft(s);
    var r := TrimRight(l);
    assert s == s[..|s| - |l|] + l;
    EscapedSizeJoin(unit, s[..|s| - |l|], l);
    assert l == r + l[|r|..];
    EscapedSizeJoin(unit, r, l[|r|..]);
  }

  // ---- the bounded escape ----

  /** The length of the longest prefix whose escaped size is within the limit. */
  ghost predicate LongestFit(unit: Unit, s: string, limit: int, k: nat) {
    && k <= |s|
    && (forall j :: 0 < j <= k ==> EscapedSize(unit, s[..j]) <= limit)
    && (forall j :: k < j <= |s| ==> EscapedSize(unit, s[..j]) > limit)
  }

  lemma {:induction false} LongerIsLarger(unit: Unit, s: string, i: nat, j: nat)
    requires i <= j <= |s|
    ensures EscapedSize(unit, s[..i]) <= EscapedSize(unit, s[..j])
    decreases j - i
  {
    hide EscapedSize;
    if i < j {
      EscapedSizeMore(unit, s, i);
      LongerIsLarger(unit, s, i + 1, j);
    }
  }

  lemma FitsHere(unit: Unit, s: string, limit: int, k: nat)
    requires k <= |s| && (k > 0 ==> EscapedSize(unit, s[..k]) <= limit)
    requires k < |s| ==> EscapedSize(unit, s[..k + 1]) > limit
    ensures LongestFit(unit, s, limit, k)
  {
    hide EscapedSize;
    forall j | 0 < j <= k ensures EscapedSize(unit, s[..j]) <= limit { LongerIsLarger(unit, s, j, k); }
    forall j | k < j <= |s| ensures EscapedSize(unit, s[..j]) > limit { LongerIsLarger(unit, s, k + 1, j); }
  }

  /** escapeWithin: the loop adds up sizes and cuts before the rune that would pass the limit. The result is
      inert, within the limit, and reads back as the longest prefix that fits, trimmed. */
  method EscapeWithin(s: string, limit: int, unit: Unit) returns (r: string, ghost cut: nat)
    ensures LongestFit(unit, s, limit, cut)
    ensures Unescape(r) == Trim(s[..cut])
    ensures Inert(r)
    ensures limit >= 0 ==> SizeOf(unit, r) <= limit
    ensures limit < 0 ==> r == ""
  {
    hide EscapedSize, Unescape, Inert, Trim;
    var n, i := 0, 0;
    assert EscapedSize(unit, s[..0]) == 0 by { assert s[..0] == ""; Nothing(unit); }
    while i < |s| && n + Cost(unit, s[i]) <= limit
      invariant 0 <= i <= |s| && n == EscapedSize(unit, s[..i]) && (i > 0 ==> n <= limit)
    {
      EscapedSizeMore(unit, s, i);
      n := n + Cost(unit, s[i]);
      i := i + 1;
    }
    if i < |s| { EscapedSizeMore(unit, s, i); }
    cut := i;
    FitsHere(unit, s, limit, i);
    if limit < 0 { assert s[..i] == ""; }
    var kept := Trim(s[..i]);
    r := EscapeAll(kept);
    EscapeReadsBack(kept);
    EscapeIsInert(kept);
    TrimCosts(unit, s[..i]);
    assert SizeOf(unit, r) == EscapedSize(unit, kept) by { SizeIsEscapedSize(unit, kept); }
    if limit < 0 { assert kept == "" by { TrimNothing(); } }
  }

  lemma Nothing(unit: Unit)
    ensures EscapedSize(unit, "") == 0
  {
  }

  lemma TrimNothing()
    ensures Trim("") == ""
  {
  }

  lemma SizeIsEscapedSize(unit: Unit, s: string)
    ensures SizeOf(unit, EscapeAll(s)) == EscapedSize(unit, s)
  {
  }

  /** PromptValue bounds bytes; the text is taken as already cleaned. */
  method PromptValue(clean: string, maxBytes: int) returns (r: string, ghost cut: nat)
    ensures LongestFit(Bytes, clean, maxBytes, cut) && Unescape(r) == Trim(clean[..cut]) && Inert(r)
    ensures maxBytes >= 0 ==> SizeOf(Bytes, r) <= maxBytes
  {
    hide *;
    r, cut := EscapeWithin(clean, maxBytes, Bytes);
  }

  const MaxInt := 0x7FFF_FFFF_FFFF_FFFF

  /** PromptText bounds characters; zero or less disables the bound. */
  method PromptText(clean: string, maxChars: int) returns (r: string, ghost cut: nat)
    ensures LongestFit(Characters, clean, if maxChars <= 0 then MaxInt else maxChars, cut)
    ensures Unescape(r) == Trim(clean[..cut]) && Inert(r)
    ensures maxChars > 0 ==> SizeOf(Characters, r) <= maxChars
  {
    hide *;
    r, cut := EscapeWithin(clean, if maxChars <= 0 then MaxInt else maxChars, Characters);
  }

  // ---- cutting UTF-8 ----

  /** The UTF-8 bytes of a rune. */
  function Utf8(c: char): (b: seq<nat>)
    ensures |b| == RuneLen(c) && b[0] < 0x100 && RuneStart(b[0]) && forall i :: 0 < i < |b| ==> !RuneStart(b[i])
  {
    var n := c as int;
    if n < 0x80 then [n]
    else if n < 0x800 then [0xC0 + n / 0x40, 0x80 + n % 0x40]
    else if n < 0x10000 then [0xE0 + n / 0x1000, 0x80 + n / 0x40 % 0x40, 0x80 + n % 0x40]
    else [0xF0 + n / 0x40000, 0x80 + n / 0x1000 % 0x40, 0x80 + n / 0x40 % 0x40, 0x80 + n % 0x40]
  }

  /** A byte that begins a rune: not of the form 10xxxxxx. */
  predicate RuneStart(b: nat) {
    b < 0x80 || b >= 0xC0
  }

  function Encode(s: string): seq<nat> {
    if s == "" then [] else Encode(s[..|s| - 1]) + Utf8(s[|s| - 1])
  }

  /** The rune that the bytes stand for, by the bits that UTF-8 puts in them. */
  function RuneOf(b: seq<int>): int {
    match |b|
    case 1 => b[0]
    case 2 => (b[0] - 0xC0) * 0x40 + (b[1] - 0x80)
    case 3 => (b[0] - 0xE0) * 0x1000 + (b[1] - 0x80) * 0x40 + (b[2] - 0x80)
    case 4 => (b[0] - 0xF0) * 0x40000 + (b[1] - 0x80) * 0x1000 + (b[2] - 0x80) * 0x40 + (b[3] - 0x80)
    case _ => -1
  }

  /** UTF-8 reads back. */
  lemma Utf8ReadsBack(c: char)
    ensures RuneOf(Utf8(c)) == c as int
  {
    var n := c as int;
    assert n / 0x1000 == n / 0x40 / 0x40 && n / 0x40000 == n / 0x1000 / 0x40;
  }

  /** The sizes are what they are called: bytes of the encoding, or characters. */
  lemma {:induction false} SizesAre(s: string)
    ensures SizeOf(Bytes, s) == |Encode(s)| && SizeOf(Characters, s) == |s|
  {
    if s != "" {
      var front, c := s[..|s| - 1], s[|s| - 1];
      SizesAre(front);
      assert s == front + [c];
      SizeJoin(Bytes, front, [c]);
      SizeJoin(Characters, front, [c]);
      assert [c][1..] == "";
    }
  }

  lemma EncodeMore(s: string, k: nat)
    requires k < |s|
    ensures Encode(s[..k + 1]) == Encode(s[..k]) + Utf8(s[k])
  {
    assert s[..k + 1][..k] == s[..k];
  }

  lemma {:induction false} EncodePrefix(s: string, k: nat)
    requires k <= |s|
    ensures Encode(s[..k]) <= Encode(s)
    decreases |s| - k
  {
    if k < |s| {
      EncodeMore(s, k);
      EncodePrefix(s, k + 1);
    } else {
      assert s[..k] == s;
    }
  }

  /** A byte of the text begins a rune exactly when the bytes before it are whole runes. */
  lemma {:induction false} StartsAreBoundaries(s: string, n: nat) returns (k: nat)
    requires n < |Encode(s)|
    ensures k < |s| && |Encode(s[..k])| <= n < |Encode(s[..k + 1])|
    ensures RuneStart(Encode(s)[n]) <==> n == |Encode(s[..k])|
  {
    var last := |s| - 1;
    var front := s[..last];
    assert Encode(s) == Encode(front) + Utf8(s[last]) && s[..last + 1] == s;
    hide Encode, Utf8;
    if n < |Encode(front)| {
      k := StartsAreBoundaries(front, n);
      assert front[..k] == s[..k] && front[..k + 1] == s[..k + 1];
    } else {
      k := last;
      assert Encode(s)[n] == Utf8(s[k])[n - |Encode(front)|];
    }
  }

  /** The cut of CleanText, on text that is valid UTF-8 without NUL: the longest prefix of whole runes that
      fits in n bytes. */
  method CutOnRune(s: string, n: nat) returns (bytes: seq<nat>, ghost kept: nat)
    ensures kept <= |s| && bytes == Encode(s[..kept]) && |bytes| <= n
    ensures kept < |s| ==> |Encode(s[..kept + 1])| > n
  {
    var all := Encode(s);
    if |all| <= n {
      kept := |s|;
      assert s[..kept] == s;
      return all, kept;
    }
    ghost var k := StartsAreBoundaries(s, n);
    var m := n;
    EncodePrefix(s, k);
    while m > 0 && !RuneStart(all[m])
      invariant |Encode(s[..k])| <= m <= n
    {
      var j := StartsAreBoundaries(s, m);
      SameRune(s, j, k, m);
      m := m - 1;
    }
    ghost var j := StartsAreBoundaries(s, m);
    SameRune(s, j, k, m);
    kept := k;
    return all[..m], kept;
  }

  lemma SameRune(s: string, j: nat, k: nat, m: nat)
    requires j < |s| && k < |s| && |Encode(s[..j])| <= m < |Encode(s[..j + 1])|
    requires |Encode(s[..k])| <= m < |Encode(s[..k + 1])|
    ensures j == k
  {
    if j < k {
      assert s[..k][..j + 1] == s[..j + 1];
      EncodePrefix(s[..k], j + 1);
    }
    if k < j {
      assert s[..j][..k + 1] == s[..k + 1];
      EncodePrefix(s[..j], k + 1);
    }
  }
}
