/** Config paths: keys joined with dots, a key that a dot-separated path cannot hold written as a
    quoted string in brackets, and list indices in brackets. The prefix test that the anchor check
    makes on rendered paths agrees with the prefix order on key sequences. */
module ConfigPath {

  predicate Special(c: char) {
    c == '.' || c == '[' || c == ']' || c == '"'
  }

  /** A key that needs no quoting. */
  predicate Plain(key: string) {
    key != "" && forall i :: 0 <= i < |key| ==> !Special(key[i])
  }

  function HexDigit(n: nat): char
    requires n < 16
  {
    "0123456789abcdef"[n]
  }

  /** The letter of Go's short escape of a control character, if it has one. */
  function ShortEscape(c: char): string {
    match c as int
    case 7 => "a"
    case 8 => "b"
    case 9 => "t"
    case 10 => "n"
    case 11 => "v"
    case 12 => "f"
    case 13 => "r"
    case _ => ""
  }

  /** strconv.Quote's escape of one character. */
  function Escape(c: char): string {
    if c == '"' || c == '\\' then ['\\', c]
    else if ShortEscape(c) != "" then "\\" + ShortEscape(c)
    else if c as int < 32 || c as int == 127 then ['\\', 'x', HexDigit(c as int / 16), HexDigit(c as int % 16)]
    else [c]
  }

  function EscapeAll(key: string): string {
    if key == "" then "" else Escape(key[0]) + EscapeAll(key[1..])
  }

  function Quote(key: string): string {
    "\"" + EscapeAll(key) + "\""
  }

  function Bracket(key: string): string {
    "[" + Quote(key) + "]"
  }

  /** One key of a path after the first. */
  function Segment(key: string): string {
    if Plain(key) then "." + key else Bracket(key)
  }

  /** The first key of a path. */
  function Head(key: string): string {
    if Plain(key) then key else Bracket(key)
  }

  function Segments(keys: seq<string>): string {
    if keys == [] then "" else Segment(keys[0]) + Segments(keys[1..])
  }

  function FormatPath(keys: seq<string>): string {
    if keys == [] then ""
    else Head(keys[0]) + Segments(keys[1..])
  }

  function Decimal(n: nat): string {
    if n < 10 then [HexDigit(n)] else Decimal(n / 10) + [HexDigit(n % 10)]
  }

  function Indices(idx: seq<nat>): string {
    if idx == [] then "" else "[" + Decimal(idx[0]) + "]" + Indices(idx[1..])
  }

  /** The path aliasPaths gives an alias: the keys on the way and the list indices after the last key. */
  function Render(keys: seq<string>, idx: seq<nat>): string {
    FormatPath(keys) + Indices(idx)
  }

  /** The test refuseAnchorsBelow makes: the alias is at `prefix` or below it. */
  predicate AtOrBelow(alias: string, prefix: string) {
    alias == prefix || prefix + "." <= alias || prefix + "[" <= alias
  }

  // ---- the escapes of a quoted key can be read back ----

  lemma HexInjective(a: nat, b: nat)
    requires a < 16 && b < 16 && HexDigit(a) == HexDigit(b)
    ensures a == b
  {
  }

  /** An escape is never cut short: the escapes of two characters that agree up to what follows are equal. */
  lemma EscapePrefixFree(c: char, d: char, s: string, t: string)
    requires Escape(c) + s == Escape(d) + t
    ensures c == d && s == t
  {
    var u := Escape(c) + s;
    assert u[0] == Escape(c)[0] == Escape(d)[0];
    if Escape(c)[0] == '\\' {
      assert u[1] == Escape(c)[1] == Escape(d)[1];
      if u[1] == 'x' {
        assert u[2] == Escape(c)[2] == Escape(d)[2] && u[3] == Escape(c)[3] == Escape(d)[3];
        HexInjective(c as int / 16, d as int / 16);
        HexInjective(c as int % 16, d as int % 16);
        assert c as int == d as int;
      }
    }
    assert c == d;
    assert s == u[|Escape(c)|..] && t == u[|Escape(d)|..];
  }

  lemma EscapeFirst(c: char)
    ensures Escape(c) != "" && Escape(c)[0] != '"'
  {
  }

  lemma EscapeAllFirst(key: string, s: string)
    requires key != ""
    ensures EscapeAll(key) + s != "" && (EscapeAll(key) + s)[0] != '"'
    ensures EscapeAll(key) + s == Escape(key[0]) + (EscapeAll(key[1..]) + s)
  {
    hide Escape;
    EscapeFirst(key[0]);
    var e, rest := Escape(key[0]), EscapeAll(key[1..]);
    assert EscapeAll(key) == e + rest;
    assert (e + rest) + s == e + (rest + s);
  }

  /** A quoted key ends where it ends: what follows it cannot change which key is read. */
  lemma {:induction false} QuotedPrefixFree(k: string, a: string, s: string, t: string)
    requires EscapeAll(k) + ("\"" + s) == EscapeAll(a) + ("\"" + t)
    ensures k == a && s == t
  {
    hide Escape;
    var s', t' := "\"" + s, "\"" + t;
    if k == "" && a == "" {
      assert s == (EscapeAll(k) + s')[1..] && t == (EscapeAll(a) + t')[1..];
    } else if k == "" {
      EscapeAllFirst(a, t');
    } else if a == "" {
      EscapeAllFirst(k, s');
    } else {
      EscapeAllFirst(k, s');
      EscapeAllFirst(a, t');
      EscapePrefixFree(k[0], a[0], EscapeAll(k[1..]) + s', EscapeAll(a[1..]) + t');
      QuotedPrefixFree(k[1..], a[1..], s, t);
      assert k == [k[0]] + k[1..] && a == [a[0]] + a[1..];
    }
  }

  // ---- segments can be read back ----

  /** What may follow a key in a path: nothing, a dot or a bracket. */
  predicate Boundary(rest: string) {
    rest == "" || rest[0] == '.' || rest[0] == '['
  }

  lemma Shorter(k: string, a: string, s: string, t: string)
    requires Plain(a) && Boundary(s) && k + s == a + t
    ensures |a| <= |k|
  {
    var u := k + s;
    assert forall i :: 0 <= i < |a| ==> u[i] == a[i];
    assert s != "" ==> u[|k|] == s[0];
  }

  lemma PlainPrefixFree(k: string, a: string, s: string, t: string)
    requires Plain(k) && Plain(a) && Boundary(s) && Boundary(t) && k + s == a + t
    ensures k == a && s == t
  {
    Shorter(k, a, s, t);
    Shorter(a, k, t, s);
    Cancel(k, a, s, t);
  }

  lemma Cancel(p: string, q: string, s: string, t: string)
    requires p + s == q + t && |p| == |q|
    ensures p == q && s == t
  {
    assert p == (p + s)[..|p|] && q == (q + t)[..|p|] && s == (p + s)[|p|..] && t == (q + t)[|p|..];
  }

  lemma BracketPrefixFree(k: string, a: string, s: string, t: string)
    requires Bracket(k) + s == Bracket(a) + t
    ensures k == a && s == t
  {
    hide EscapeAll;
    BracketOpens(k, s);
    BracketOpens(a, t);
    Cancel("[\"", "[\"", EscapeAll(k) + ("\"" + ("]" + s)), EscapeAll(a) + ("\"" + ("]" + t)));
    QuotedPrefixFree(k, a, "]" + s, "]" + t);
    Cancel("]", "]", s, t);
  }

  lemma BracketOpens(k: string, s: string)
    ensures Bracket(k) + s == "[\"" + (EscapeAll(k) + ("\"" + ("]" + s)))
  {
    hide EscapeAll;
  }

  lemma SegmentPrefixFree(k: string, a: string, s: string, t: string)
    requires Boundary(s) && Boundary(t) && Segment(k) + s == Segment(a) + t
    ensures k == a && s == t
  {
    hide Plain, Quote, Boundary;
    assert (Segment(k) + s)[0] == Segment(k)[0] && (Segment(a) + t)[0] == Segment(a)[0];
    if Plain(k) {
      Regroup(".", k, s);
      Regroup(".", a, t);
      Cancel(".", ".", k + s, a + t);
      PlainPrefixFree(k, a, s, t);
    } else {
      BracketPrefixFree(k, a, s, t);
    }
  }

  lemma HeadPrefixFree(k: string, a: string, s: string, t: string)
    requires Boundary(s) && Boundary(t) && Head(k) + s == Head(a) + t
    ensures k == a && s == t
  {
    hide Quote, Boundary;
    assert (Head(k) + s)[0] == Head(k)[0] && (Head(a) + t)[0] == Head(a)[0];
    if Plain(k) {
      PlainPrefixFree(k, a, s, t);
    } else {
      BracketPrefixFree(k, a, s, t);
    }
  }

  lemma SegmentFirst(k: string)
    ensures Segment(k) != "" && (Segment(k)[0] == '.' || Segment(k)[0] == '[')
  {
    hide Plain, Quote;
  }

  lemma TailBoundary(keys: seq<string>, rest: string)
    requires Boundary(rest)
    ensures Boundary(Segments(keys) + rest)
  {
    hide Segment;
    if keys != [] {
      SegmentFirst(keys[0]);
      assert (Segments(keys) + rest)[0] == Segment(keys[0])[0];
    } else {
      assert Segments(keys) + rest == rest;
    }
  }

  lemma IndicesBoundary(idx: seq<nat>)
    ensures Boundary(Indices(idx))
  {
    hide Decimal;
  }

  lemma IndexIsNoKey(k: string, s: string, idx: seq<nat>)
    ensures Segment(k) + s != Indices(idx) && Head(k) + s != Indices(idx)
  {
    hide Decimal, EscapeAll;
    var u := Indices(idx);
    if idx != [] {
      DecimalFirst(idx[0]);
      assert u[0] == '[' && u[1] == Decimal(idx[0])[0];
    }
    if Plain(k) {
      assert (Segment(k) + s)[0] == '.' && (Head(k) + s)[0] == k[0];
    } else {
      assert (Bracket(k) + s)[1] == '"';
    }
  }

  lemma {:induction false} DecimalFirst(n: nat)
    ensures Decimal(n) != "" && Decimal(n)[0] != '"'
  {
    if n >= 10 { DecimalFirst(n / 10); }
  }

  lemma SegmentsCons(keys: seq<string>, rest: string)
    requires keys != []
    ensures Segments(keys) + rest == Segment(keys[0]) + (Segments(keys[1..]) + rest)
    ensures FormatPath(keys) + rest == Head(keys[0]) + (Segments(keys[1..]) + rest)
  {
    hide Segment, Head;
    Regroup(Segment(keys[0]), Segments(keys[1..]), rest);
    Regroup(Head(keys[0]), Segments(keys[1..]), rest);
  }

  lemma Regroup(a: string, b: string, c: string)
    ensures (a + b) + c == a + (b + c)
  {
  }

  /** `keys` rendered after the first key and followed by a boundary begins the rendered tail of `all`
      only if `keys` begins `all`. */
  lemma {:induction false} TailFaithful(keys: seq<string>, all: seq<string>, idx: seq<nat>, rest: string)
    requires Boundary(rest) && Segments(all) + Indices(idx) == Segments(keys) + rest
    ensures keys <= all
  {
    hide Segment, Segments, Indices, Boundary;
    if keys != [] {
      TailBoundary(keys[1..], rest);
      SegmentsCons(keys, rest);
      if all == [] {
        assert Segments(all) + Indices(idx) == Indices(idx) by { SegmentsNone(idx); }
        IndexIsNoKey(keys[0], Segments(keys[1..]) + rest, idx);
      } else {
        IndicesBoundary(idx);
        TailBoundary(all[1..], Indices(idx));
        SegmentsCons(all, Indices(idx));
        SegmentPrefixFree(all[0], keys[0], Segments(all[1..]) + Indices(idx), Segments(keys[1..]) + rest);
        TailFaithful(keys[1..], all[1..], idx, rest);
        assert keys == [keys[0]] + keys[1..] && all == [all[0]] + all[1..];
      }
    }
  }

  lemma SegmentsNone(idx: seq<nat>)
    ensures Segments([]) + Indices(idx) == Indices(idx) && Render([], idx) == Indices(idx)
  {
    hide Indices;
  }

  lemma {:induction false} SegmentsSplit(a: seq<string>, b: seq<string>)
    ensures Segments(a + b) == Segments(a) + Segments(b)
  {
    hide Segment;
    if a == [] {
      assert a + b == b;
    } else {
      assert (a + b)[1..] == a[1..] + b;
      SegmentsSplit(a[1..], b);
    }
  }

  lemma FormatSplit(a: seq<string>, b: seq<string>)
    requires a != []
    ensures FormatPath(a + b) == FormatPath(a) + Segments(b)
  {
    hide Head, Segments;
    assert (a + b)[1..] == a[1..] + b && (a + b)[0] == a[0];
    SegmentsSplit(a[1..], b);
  }

  lemma FirstFaithful(keys: seq<string>, all: seq<string>, idx: seq<nat>, rest: string)
    requires keys != [] && Boundary(rest) && Render(all, idx) == FormatPath(keys) + rest
    ensures keys <= all
  {
    hide Segment, Segments, Indices, Boundary, Head, FormatPath;
    var tail, tail' := Segments(keys[1..]) + rest, Indices(idx);
    TailBoundary(keys[1..], rest);
    SegmentsCons(keys, rest);
    if all == [] {
      SegmentsNone(idx);
      IndexIsNoKey(keys[0], tail, idx);
    } else {
      IndicesBoundary(idx);
      TailBoundary(all[1..], Indices(idx));
      SegmentsCons(all, Indices(idx));
      HeadPrefixFree(all[0], keys[0], Segments(all[1..]) + Indices(idx), tail);
      TailFaithful(keys[1..], all[1..], idx, rest);
      assert keys == [keys[0]] + keys[1..] && all == [all[0]] + all[1..];
    }
  }

  lemma BelowIsBoundary(a: string, p: string)
    ensures AtOrBelow(a, p) <==> p <= a && Boundary(a[|p|..])
  {
    if p <= a && a != p {
      var c := a[|p|];
      assert p + [c] <= a;
    }
  }

  /** The anchor check's prefix test on rendered paths is the prefix order on the keys: whatever the
      keys contain, an alias path passes it exactly when the alias's keys start with the edited keys. */
  lemma PrefixTestIsFaithful(keys: seq<string>, all: seq<string>, idx: seq<nat>)
    requires keys != []
    ensures AtOrBelow(Render(all, idx), FormatPath(keys)) <==> keys <= all
  {
    hide Segments, Indices, FormatPath, AtOrBelow, Boundary;
    var p, a := FormatPath(keys), Render(all, idx);
    BelowIsBoundary(a, p);
    if keys <= all {
      var more := all[|keys|..];
      assert all == keys + more;
      FormatSplit(keys, more);
      IndicesBoundary(idx);
      TailBoundary(more, Indices(idx));
      assert a == p + (Segments(more) + Indices(idx));
    }
    if p <= a && Boundary(a[|p|..]) {
      assert a == p + a[|p|..];
      FirstFaithful(keys, all, idx, a[|p|..]);
    }
  }

  lemma HeadIsThere(keys: seq<string>)
    requires keys != []
    ensures FormatPath(keys) != ""
  {
    hide Quote, Segments;
  }

  /** Different keys are written as different paths, so a path can be read back. */
  lemma FormatPathsDiffer(a: seq<string>, b: seq<string>)
    requires FormatPath(a) == FormatPath(b)
    ensures a == b
  {
    if a == [] || b == [] {
      if a != [] { HeadIsThere(a); }
      if b != [] { HeadIsThere(b); }
    } else {
      assert Indices([]) == "" && FormatPath(a) + "" == FormatPath(a) && FormatPath(b) + "" == FormatPath(b);
      hide Segments, FormatPath;
      FirstFaithful(a, b, [], "");
      FirstFaithful(b, a, [], "");
    }
  }
}
