/** Reading a config path back into its keys: what FormatPath writes, SplitPath reads. */
module ConfigSplit {
  import opened ConfigPath

  datatype Option<T> = None | Some(value: T)

  /** A key read off the front of a path, and what follows it. */
  datatype Read = Read(key: string, after: string)

  // ---- a quoted key ----

  function HexValue(c: char): int {
    if '0' <= c <= '9' then c as int - '0' as int
    else if 'a' <= c <= 'f' then c as int - 'a' as int + 10
    else if 'A' <= c <= 'F' then c as int - 'A' as int + 10
    else -1
  }

  /** The character of a one-letter escape. */
  function OfLetter(c: char): Option<char> {
    match c
    case 'a' => Some(7 as char)
    case 'b' => Some(8 as char)
    case 't' => Some(9 as char)
    case 'n' => Some(10 as char)
    case 'v' => Some(11 as char)
    case 'f' => Some(12 as char)
    case 'r' => Some(13 as char)
    case '\\' => Some('\\')
    case '"' => Some('"')
    case _ => None
  }

  datatype Escaped = Escaped(rune: char, size: nat)

  /** The escape at the front of s, which starts with a backslash. */
  function ReadEscape(s: string): (r: Option<Escaped>)
    ensures r.Some? ==> 0 < r.value.size <= |s|
  {
    if |s| < 2 then None
    else if OfLetter(s[1]).Some? then Some(Escaped(OfLetter(s[1]).value, 2))
    else if s[1] == 'x' && |s| >= 4 && 0 <= HexValue(s[2]) < 8 && HexValue(s[3]) >= 0
    then Some(Escaped((HexValue(s[2]) * 16 + HexValue(s[3])) as char, 4))
    else None
  }

  /** The rest of a quoted string, up to its closing quote. A raw line break is not allowed in one. */
  function ReadQuoted(s: string): (r: Option<Read>)
    ensures r.Some? ==> |r.value.after| < |s|
    decreases |s|
  {
    if s == "" || s[0] == '\n' then None
    else if s[0] == '"' then Some(Read("", s[1..]))
    else
      var c := if s[0] == '\\' then ReadEscape(s) else Some(Escaped(s[0], 1));
      if c.None? then None
      else match ReadQuoted(s[c.value.size..])
        case None => None
        case Some(rest) => Some(Read([c.value.rune] + rest.key, rest.after))
  }

  lemma HexReads(n: nat)
    requires n < 16
    ensures HexValue(HexDigit(n)) == n
  {
  }

  lemma LettersRead(c: char)
    requires ShortEscape(c) != ""
    ensures |ShortEscape(c)| == 1 && OfLetter(ShortEscape(c)[0]) == Some(c)
  {
  }

  /** An escaped character reads as itself. */
  lemma EscapeReads(c: char, t: string)
    ensures ReadQuoted(Escape(c) + t) ==
      match ReadQuoted(t) { case None => None case Some(rest) => Some(Read([c] + rest.key, rest.after)) }
  {
    var e := Escape(c);
    var s := e + t;
    assert s[|e|..] == t;
    if e[0] == '\\' {
      EscapeIsRead(c, t);
    }
  }

  lemma EscapeIsRead(c: char, t: string)
    requires Escape(c)[0] == '\\'
    ensures (Escape(c) + t)[0] == '\\' && ReadEscape(Escape(c) + t) == Some(Escaped(c, |Escape(c)|))
  {
    var e := Escape(c);
    var s := e + t;
    assert s[1] == e[1];
    if ShortEscape(c) != "" {
      LettersRead(c);
    } else if c != '"' && c != '\\' {
      HexReads(c as int / 16);
      HexReads(c as int % 16);
      assert s[2] == e[2] && s[3] == e[3] && s[1] == 'x' && OfLetter('x').None?;
    }
  }

  lemma {:induction false} QuotedReads(key: string, t: string)
    ensures ReadQuoted(EscapeAll(key) + ("\"" + t)) == Some(Read(key, t))
  {
    hide Escape;
    if key == "" {
      assert EscapeAll(key) + ("\"" + t) == "\"" + t;
      assert ("\"" + t)[1..] == t;
    } else {
      var rest := EscapeAll(key[1..]) + ("\"" + t);
      assert EscapeAll(key) + ("\"" + t) == Escape(key[0]) + rest;
      QuotedReads(key[1..], t);
      EscapeReads(key[0], rest);
      assert key == [key[0]] + key[1..];
    }
  }

  // ---- one key ----

  /** Where a dot or a bracket first stands. */
  function KeyEnd(s: string, i: nat): (r: nat)
    requires i <= |s|
    ensures i <= r <= |s| && (r < |s| ==> s[r] == '.' || s[r] == '[') && forall j :: i <= j < r ==> s[j] != '.' && s[j] != '['
    decreases |s| - i
  {
    if i == |s| || s[i] == '.' || s[i] == '[' then i else KeyEnd(s, i + 1)
  }

  predicate HasQuoteOrBracket(s: string) {
    exists i :: 0 <= i < |s| && (s[i] == ']' || s[i] == '"')
  }

  /** The key a path starts with: a bracketed quoted one, or a plain one up to a dot or a bracket. */
  function ReadKey(s: string): (r: Option<Read>)
    ensures r.Some? ==> |r.value.after| < |s|
  {
    if "[" <= s then
      if |s| < 2 || s[1] != '"' then None
      else match ReadQuoted(s[2..])
        case None => None
        case Some(read) => if "]" <= read.after then Some(Read(read.key, read.after[1..])) else None
    else
      var end := KeyEnd(s, 0);
      if end == 0 || HasQuoteOrBracket(s[..end]) then None else Some(Read(s[..end], s[end..]))
  }

  /** What may follow a key in a formatted path. */
  predicate Follows(t: string) {
    t == "" || t[0] == '.' || t[0] == '['
  }

  lemma PlainReads(key: string, t: string)
    requires Plain(key) && Follows(t)
    ensures ReadKey(key + t) == Some(Read(key, t))
  {
    var s := key + t;
    assert forall i :: 0 <= i < |key| ==> s[i] == key[i] && !Special(key[i]);
    var end := KeyEnd(s, 0);
    assert s[0] == key[0] && s[0] != '[';
    assert t != "" ==> s[|key|] == t[0];
    assert end == |key|;
    assert s[..end] == key && s[end..] == t;
  }

  lemma BracketReads(key: string, t: string)
    ensures ReadKey(Bracket(key) + t) == Some(Read(key, t))
  {
    hide EscapeAll, ReadQuoted;
    var s := Bracket(key) + t;
    assert s == "[\"" + (EscapeAll(key) + ("\"" + ("]" + t)));
    assert s[2..] == EscapeAll(key) + ("\"" + ("]" + t));
    assert s[0] == '[' && "[" <= s && s[1] == '"';
    QuotedReads(key, "]" + t);
    assert ("]" + t)[1..] == t;
  }

  lemma HeadReads(key: string, t: string)
    requires Follows(t)
    ensures ReadKey(Head(key) + t) == Some(Read(key, t)) && Head(key) != "" && Head(key)[0] != '.'
  {
    hide ReadKey;
    if Plain(key) {
      PlainReads(key, t);
      assert !Special(key[0]);
    } else {
      BracketReads(key, t);
    }
  }

  // ---- a path ----

  function More(key: string, rest: Option<seq<string>>): Option<seq<string>> {
    match rest
    case None => None
    case Some(keys) => Some([key] + keys)
  }

  /** What stands after a key: nothing, a dot and another key, or a bracket. */
  function Split(s: string): Option<seq<string>>
    decreases |s|
  {
    match ReadKey(s)
    case None => None
    case Some(read) =>
      var after := read.after;
      if after == "" then Some([read.key])
      else if after[0] == '.' then
        if |after| == 1 || after[1] == '.' then None else More(read.key, Split(after[1..]))
      else if after[0] == '[' then More(read.key, Split(after))
      else None
  }

  lemma SegmentsFollow(keys: seq<string>)
    ensures Follows(Segments(keys))
    ensures keys == [] <==> Segments(keys) == ""
  {
    hide EscapeAll;
    if keys != [] { assert Segments(keys)[0] == Segment(keys[0])[0]; }
  }

  /** What FormatPath writes is read back, whatever the keys contain. */
  lemma {:induction false} SplitReadsBack(keys: seq<string>)
    requires keys != []
    ensures Split(FormatPath(keys)) == Some(keys)
  {
    hide Split, Head, Segment, Plain, FormatPath, Segments;
    var rest := keys[1..];
    assert keys == [keys[0]] + rest;
    FormatIs(keys);
    SegmentsFollow(rest);
    HeadReads(keys[0], Segments(rest));
    if rest == [] {
      SplitLast(FormatPath(keys), keys[0]);
      assert keys == [keys[0]];
    } else {
      SplitReadsBack(rest);
      SegmentIsHead(rest);
      SplitOn(FormatPath(keys), keys[0], Segments(rest), FormatPath(rest));
    }
  }

  lemma FormatIs(keys: seq<string>)
    requires keys != []
    ensures FormatPath(keys) == Head(keys[0]) + Segments(keys[1..])
  {
    hide Head, Segments;
  }

  lemma SplitLast(s: string, key: string)
    requires ReadKey(s) == Some(Read(key, ""))
    ensures Split(s) == Some([key])
  {
    hide ReadKey;
  }

  lemma SplitOn(s: string, key: string, t: string, path: string)
    requires ReadKey(s) == Some(Read(key, t)) && t != "" && path != "" && path[0] != '.'
    requires if t[0] == '.' then t[1..] == path else t[0] == '[' && t == path
    ensures Split(s) == More(key, Split(path))
  {
    hide ReadKey;
  }

  /** The rest of a path is a path of its own, behind a dot or not. */
  lemma SegmentIsHead(keys: seq<string>)
    requires keys != []
    ensures var t, path := Segments(keys), FormatPath(keys);
      path != "" && path[0] != '.' && t != "" && (if t[0] == '.' then t[1..] == path else t[0] == '[' && t == path)
  {
    var head, more := Head(keys[0]), Segments(keys[1..]);
    assert Segments(keys) == Segment(keys[0]) + more;
    FormatIs(keys);
    HeadOpens(keys[0]);
    hide Segments, FormatPath, Head, Segment;
    JoinFirst(head, more);
    Undot(head, more);
  }

  /** A segment is a dot and a plain key, or a bracketed one. */
  lemma HeadOpens(key: string)
    ensures Head(key) != "" && Head(key)[0] != '.'
    ensures Segment(key) == "." + Head(key) || (Segment(key) == Head(key) && Head(key)[0] == '[')
  {
    hide EscapeAll;
    if Plain(key) { assert !Special(key[0]); }
  }

  lemma Undot(a: string, b: string)
    ensures ("." + a) + b == "." + (a + b) && ("." + (a + b))[0] == '.' && ("." + (a + b))[1..] == a + b
  {
  }

  lemma JoinFirst(a: string, b: string)
    ensures a != "" ==> (a + b)[0] == a[0]
  {
  }

  /** SplitPath, in a loop over the rest of the path. It reads back every list of keys that FormatPath wrote. */
  method SplitPath(path: string) returns (r: Option<seq<string>>)
    ensures r == if path == "" then None else Split(path)
    ensures forall keys :: keys != [] && path == FormatPath(keys) ==> r == Some(keys)
  {
    assert forall keys :: keys != [] && path == FormatPath(keys) ==> path != "" && Split(path) == Some(keys) by {
      forall keys | keys != [] && path == FormatPath(keys) ensures path != "" && Split(path) == Some(keys) {
        SplitReadsBack(keys);
        SegmentIsHead(keys);
      }
    }
    if path == "" { return None; }
    hide ReadKey, FormatPath, Joined, More;
    var keys: seq<string>, rest := [], path;
    JoinedNone(Split(path));
    while true
      invariant Split(path) == Joined(keys, Split(rest))
      decreases |rest|
    {
      var read := ReadKey(rest);
      if read.None? { return None; }
      JoinedMore(keys, read.value.key);
      keys, rest := keys + [read.value.key], read.value.after;
      if rest == "" { return Some(keys); }
      if rest[0] == '.' {
        if |rest| == 1 || rest[1] == '.' { return None; }
        rest := rest[1..];
      } else if rest[0] != '[' {
        return None;
      }
    }
  }

  function Joined(keys: seq<string>, rest: Option<seq<string>>): Option<seq<string>> {
    match rest
    case None => None
    case Some(more) => Some(keys + more)
  }

  lemma JoinedNone(rest: Option<seq<string>>)
    ensures Joined([], rest) == rest
  {
    if rest.Some? { assert [] + rest.value == rest.value; }
  }

  lemma JoinedMore(keys: seq<string>, key: string)
    ensures forall rest :: Joined(keys, More(key, rest)) == Joined(keys + [key], rest)
    ensures Joined(keys, Some([key])) == Some(keys + [key]) && Joined(keys, None) == None
  {
    forall rest ensures Joined(keys, More(key, rest)) == Joined(keys + [key], rest) {
      if rest.Some? { assert keys + ([key] + rest.value) == (keys + [key]) + rest.value; }
    }
  }

  // ---- paths without brackets ----

  predicate Dotted(s: string) {
    forall i :: 0 <= i < |s| ==> s[i] != '[' && s[i] != ']' && s[i] != '"'
  }

  lemma DottedKey(s: string)
    requires Dotted(s) && ReadKey(s).Some?
    ensures var read := ReadKey(s).value;
      Plain(read.key) && s == read.key + read.after && Dotted(read.after) && (read.after == "" || read.after[0] == '.')
  {
    var end := KeyEnd(s, 0);
    assert s == "" || s[0] != '[';
    assert forall i :: 0 <= i < end ==> !Special(s[i]);
  }

  /** How a path that is read goes on. */
  lemma SplitCases(s: string, keys: seq<string>)
    requires Split(s) == Some(keys)
    ensures ReadKey(s).Some? && keys != [] && keys[0] == ReadKey(s).value.key
    ensures var after := ReadKey(s).value.after;
      if after == "" then keys == [keys[0]]
      else (after[0] == '.' && Split(after[1..]) == Some(keys[1..])) || (after[0] == '[' && Split(after) == Some(keys[1..]))
  {
    hide ReadKey;
  }

  /** One plain key in front of a formatted path of plain keys. */
  lemma DotJoins(key: string, keys: seq<string>)
    requires Plain(key) && keys != [] && Plain(keys[0])
    ensures FormatPath([key] + keys) == key + ("." + FormatPath(keys))
  {
    var all := [key] + keys;
    assert all[1..] == keys;
    FormatIs(all);
    FormatIs(keys);
    hide FormatPath;
    Undot(keys[0], Segments(keys[1..]));
  }

  lemma {:induction false} DottedSplits(s: string, keys: seq<string>)
    requires Dotted(s) && Split(s) == Some(keys)
    ensures keys != [] && s == FormatPath(keys) && forall k :: k in keys ==> Plain(k)
    decreases |s|
  {
    hide ReadKey, Plain, Split, FormatPath, Dotted;
    SplitCases(s, keys);
    DottedKey(s);
    var read, rest := ReadKey(s).value, keys[1..];
    assert keys == [read.key] + rest;
    if read.after == "" {
      OneKey(read.key);
      assert read.key + "" == read.key;
    } else {
      assert read.after == "." + read.after[1..];
      DottedTail(read.after);
      DottedSplits(read.after[1..], rest);
      assert rest[0] in rest;
      DotJoins(read.key, rest);
    }
  }

  lemma OneKey(key: string)
    requires Plain(key)
    ensures FormatPath([key]) == key
  {
    assert [key][1..] == [];
  }

  lemma DottedTail(s: string)
    requires Dotted(s) && s != ""
    ensures Dotted(s[1..])
  {
  }

  /** A path without brackets and quotes is read exactly when it is plain keys joined with single dots, and as those. */
  lemma DottedReads(s: string, keys: seq<string>)
    requires Dotted(s)
    ensures Split(s) == Some(keys) <==> keys != [] && s == FormatPath(keys) && forall k :: k in keys ==> Plain(k)
  {
    hide Split, FormatPath, Plain;
    if keys != [] && s == FormatPath(keys) { SplitReadsBack(keys); }
    if Split(s) == Some(keys) { DottedSplits(s, keys); }
  }
}
