/**
 Literal prefixes inside patterns: the escaping for LIKE (with a backslash, and with `=` on
 MySQL) and for the globs of a Redis scan, against what those patterns match.
 */
module Escape {

  // ---- Patterns ----

  /** What a LIKE pattern with an escape character matches. */
  ghost predicate Like(pattern: string, s: string, escape: char)
    decreases |pattern|
  {
    if pattern == [] then s == []
    else if pattern[0] == escape then
      |pattern| > 1 && s != [] && s[0] == pattern[1] && Like(pattern[2..], s[1..], escape)
    else if pattern[0] == '%' then exists k :: 0 <= k <= |s| && Like(pattern[1..], s[k..], escape)
    else s != [] && (pattern[0] == '_' || pattern[0] == s[0]) && Like(pattern[1..], s[1..], escape)
  }

  /**
   What a Redis glob matches. `brackets` says, for the pattern behind a `[` and a character,
   whether the bracket expression takes the character and what of the pattern is left.
   */
  ghost predicate Glob(pattern: string, s: string, brackets: (string, char) -> (bool, string))
    decreases |pattern|
  {
    if pattern == [] then s == []
    else if pattern[0] == '*' then exists k :: 0 <= k <= |s| && Glob(pattern[1..], s[k..], brackets)
    else if s == [] then false
    else if pattern[0] == '?' then Glob(pattern[1..], s[1..], brackets)
    else if pattern[0] == '[' then
      var (taken, rest) := brackets(pattern[1..], s[0]);
      taken && |rest| < |pattern| && Glob(rest, s[1..], brackets)
    else if pattern[0] == '\\' && |pattern| > 1 then s[0] == pattern[1] && Glob(pattern[2..], s[1..], brackets)
    else s[0] == pattern[0] && Glob(pattern[1..], s[1..], brackets)
  }

  // ---- Escaping ----

  /** Every occurrence of a character replaced. */
  function ReplaceAll(s: string, c: char, text: string): string {
    if s == [] then [] else (if s[0] == c then text else [s[0]]) + ReplaceAll(s[1..], c, text)
  }

  /** Three replacements, one after the other. */
  function EscapeLike(s: string): string {
    ReplaceAll(ReplaceAll(ReplaceAll(s, '\\', "\\\\"), '%', "\\%"), '_', "\\_")
  }

  /** One pass that puts the escape character before every special one. */
  function Escaped(s: string, special: set<char>, escape: char): string {
    if s == [] then [] else (if s[0] in special then [escape, s[0]] else [s[0]]) + Escaped(s[1..], special, escape)
  }

  const MYSQL_SPECIAL := {'=', '%', '_'}
  const LIKE_SPECIAL := {'\\', '%', '_'}
  const GLOB_SPECIAL := {'\\', '*', '?', '[', ']'}

  function EscapeLikeMySql(s: string): string {
    Escaped(s, MYSQL_SPECIAL, '=')
  }

  /** The loop of the glob escaping. */
  method EscapeGlob(s: string) returns (r: string)
    ensures r == Escaped(s, GLOB_SPECIAL, '\\')
  {
    r := "";
    assert s[0..] == s && s[|s|..] == [];
    for i := 0 to |s|
      invariant r + Escaped(s[i..], GLOB_SPECIAL, '\\') == Escaped(s, GLOB_SPECIAL, '\\')
    {
      var piece := [s[i]];
      if s[i] in GLOB_SPECIAL { piece := "\\" + piece; }
      assert s[i..][0] == s[i] && s[i..][1..] == s[i + 1..];
      assert Escaped(s[i..], GLOB_SPECIAL, '\\') == piece + Escaped(s[i + 1..], GLOB_SPECIAL, '\\');
      assert r + (piece + Escaped(s[i + 1..], GLOB_SPECIAL, '\\')) == r + piece + Escaped(s[i + 1..], GLOB_SPECIAL, '\\');
      r := r + piece;
    }
  }

  // ---- The replacements in turn are one pass ----

  lemma {:induction false} ReplaceAppend(a: string, b: string, c: char, text: string)
    ensures ReplaceAll(a + b, c, text) == ReplaceAll(a, c, text) + ReplaceAll(b, c, text)
  {
    if a == [] {
      assert a + b == b;
    } else {
      assert (a + b)[0] == a[0] && (a + b)[1..] == a[1..] + b;
      ReplaceAppend(a[1..], b, c, text);
    }
  }

  lemma EscapeLikeAppend(a: string, b: string)
    ensures EscapeLike(a + b) == EscapeLike(a) + EscapeLike(b)
  {
    var a1, b1 := ReplaceAll(a, '\\', "\\\\"), ReplaceAll(b, '\\', "\\\\");
    ReplaceAppend(a, b, '\\', "\\\\");
    ReplaceAppend(a1, b1, '%', "\\%");
    ReplaceAppend(ReplaceAll(a1, '%', "\\%"), ReplaceAll(b1, '%', "\\%"), '_', "\\_");
  }

  lemma ReplaceOne(c: char, find: char, text: string)
    ensures ReplaceAll([c], find, text) == if c == find then text else [c]
  {
    assert [c][1..] == [];
  }

  lemma ReplaceTwo(a: char, b: char, find: char, text: string)
    requires a != find
    ensures ReplaceAll([a, b], find, text) == [a] + if b == find then text else [b]
  {
    assert [a, b] == [a] + [b];
    ReplaceAppend([a], [b], find, text);
    ReplaceOne(a, find, text);
    ReplaceOne(b, find, text);
  }

  lemma EscapeLikeOne(c: char)
    ensures EscapeLike([c]) == if c in LIKE_SPECIAL then ['\\', c] else [c]
  {
    ReplaceOne(c, '\\', "\\\\");
    if c == '\\' {
      ReplaceTwo('\\', '\\', '%', "\\%");
      ReplaceTwo('\\', '\\', '_', "\\_");
    } else {
      ReplaceOne(c, '%', "\\%");
      if c == '%' {
        ReplaceTwo('\\', '%', '_', "\\_");
      } else {
        ReplaceOne(c, '_', "\\_");
      }
    }
  }

  /** No replacement touches what an earlier one wrote. */
  lemma {:induction false} InTurnIsOnePass(s: string)
    ensures EscapeLike(s) == Escaped(s, LIKE_SPECIAL, '\\')
  {
    if s != [] {
      assert s == [s[0]] + s[1..];
      EscapeLikeAppend([s[0]], s[1..]);
      EscapeLikeOne(s[0]);
      InTurnIsOnePass(s[1..]);
    }
  }

  // ---- The escaped prefix matches exactly its extensions ----

  lemma {:induction false} LikeIsPrefix(p: string, key: string, escape: char)
    requires escape != '%' && escape != '_'
    ensures Like(Escaped(p, {escape, '%', '_'}, escape) + "%", key, escape) <==> p <= key
  {
    var special := {escape, '%', '_'};
    if p == [] {
      assert Escaped(p, special, escape) + "%" == "%" && "%"[1..] == [];
      assert Like("%"[1..], key[|key|..], escape);
    } else {
      var tail := Escaped(p[1..], special, escape) + "%";
      var head := if p[0] in special then [escape, p[0]] else [p[0]];
      assert Escaped(p, special, escape) + "%" == head + tail;
      assert (head + tail)[|head|..] == tail;
      if key != [] {
        LikeIsPrefix(p[1..], key[1..], escape);
        assert p <= key <==> p[0] == key[0] && p[1..] <= key[1..] by { PrefixByHead(p, key); }
      }
    }
  }

  lemma PrefixByHead(p: string, key: string)
    requires p != [] && key != []
    ensures p <= key <==> p[0] == key[0] && p[1..] <= key[1..]
  {
    if p[0] == key[0] && p[1..] <= key[1..] {
      assert forall i :: 0 < i < |p| ==> p[i] == p[1..][i - 1] && key[i] == key[1..][i - 1];
    }
  }

  /** Listing by prefix over SQL finds exactly the names that start with it. */
  lemma EscapeLikeIsExact(p: string, key: string)
    ensures Like(EscapeLike(p) + "%", key, '\\') <==> p <= key
  {
    InTurnIsOnePass(p);
    assert LIKE_SPECIAL == {'\\', '%', '_'};
    LikeIsPrefix(p, key, '\\');
  }

  lemma EscapeLikeMySqlIsExact(p: string, key: string)
    ensures Like(EscapeLikeMySql(p) + "%", key, '=') <==> p <= key
  {
    LikeIsPrefix(p, key, '=');
  }

  /** The flush scans exactly the keys under its prefix, whatever bracket expressions mean. */
  lemma {:induction false} EscapeGlobIsExact(p: string, key: string, brackets: (string, char) -> (bool, string))
    ensures Glob(Escaped(p, GLOB_SPECIAL, '\\') + "*", key, brackets) <==> p <= key
  {
    if p == [] {
      assert Escaped(p, GLOB_SPECIAL, '\\') + "*" == "*" && "*"[1..] == [];
      assert Glob("*"[1..], key[|key|..], brackets);
    } else {
      var tail := Escaped(p[1..], GLOB_SPECIAL, '\\') + "*";
      var head := if p[0] in GLOB_SPECIAL then ['\\', p[0]] else [p[0]];
      assert Escaped(p, GLOB_SPECIAL, '\\') + "*" == head + tail;
      assert (head + tail)[|head|..] == tail;
      if key != [] {
        EscapeGlobIsExact(p[1..], key[1..], brackets);
        PrefixByHead(p, key);
      }
    }
  }

  /**
   What a scan owes: its pages hold only keys that match the pattern, and every matching key
   present throughout.
   */
  ghost predicate ScanOf(pages: seq<seq<string>>, keys: set<string>, pattern: string, brackets: (string, char) -> (bool, string)) {
    && (forall i, j :: 0 <= i < |pages| && 0 <= j < |pages[i]| ==> Glob(pattern, pages[i][j], brackets))
    && (forall key :: key in keys && Glob(pattern, key, brackets) ==> exists i :: 0 <= i < |pages| && key in pages[i])
  }

  /** The flush deletes page after page: exactly the keys under the prefix are gone. */
  method FlushNode(keys: set<string>, prefix: string, pages: seq<seq<string>>, ghost brackets: (string, char) -> (bool, string))
    returns (left: set<string>)
    requires ScanOf(pages, keys, Escaped(prefix, GLOB_SPECIAL, '\\') + "*", brackets)
    ensures left == set key | key in keys && !(prefix <= key)
  {
    ghost var pattern := Escaped(prefix, GLOB_SPECIAL, '\\') + "*";
    left := keys;
    for i := 0 to |pages|
      invariant left <= keys && forall key :: key in keys && key !in left ==> prefix <= key
      invariant forall k, key :: 0 <= k < i && key in pages[k] ==> key !in left
    {
      for j := 0 to |pages[i]|
        invariant left <= keys && forall key :: key in keys && key !in left ==> prefix <= key
        invariant forall k, key :: 0 <= k < i && key in pages[k] ==> key !in left
        invariant forall k :: 0 <= k < j ==> pages[i][k] !in left
      {
        assert Glob(pattern, pages[i][j], brackets);
        EscapeGlobIsExact(prefix, pages[i][j], brackets);
        left := left - {pages[i][j]};
      }
    }
    forall key | key in left ensures !(prefix <= key) {
      EscapeGlobIsExact(prefix, key, brackets);
    }
  }

  // ---- Without escaping ----

  /** One pattern character that stands for itself or for any one character. */
  lemma LikeByHead(p: string, c: char, key: string)
    requires p != [] && p[0] != '\\' && p[0] != '%' && (p[0] == '_' || p[0] == c)
    requires Like(p[1..] + "%", key, '\\')
    ensures Like(p + "%", [c] + key, '\\')
  {
    assert (p + "%")[1..] == p[1..] + "%" && ([c] + key)[1..] == key;
  }

  lemma LikeByWildcard(p: string, key: string)
    requires p != [] && p[0] == '%' && Like(p[1..] + "%", key, '\\')
    ensures Like(p + "%", key, '\\')
  {
    assert (p + "%")[1..] == p[1..] + "%" && key[0..] == key;
    assert Like((p + "%")[1..], key[0..], '\\');
  }

  /** A backslash takes the next character literally, be it the wildcard behind the prefix. */
  lemma LikeByEscape(p: string, key: string)
    requires |p| > 1 && p[0] == '\\' && Like(p[2..] + "%", key, '\\')
    ensures Like(p + "%", [p[1]] + key, '\\')
  {
    assert (p + "%")[2..] == p[2..] + "%" && ([p[1]] + key)[1..] == key;
  }

  lemma LikeByLastEscape(p: string)
    requires p == "\\"
    ensures Like(p + "%", "%", '\\')
  {
    assert (p + "%")[2..] == [] && "%"[1..] == [];
  }

  /** Some key that is no longer than the prefix matches. */
  lemma {:induction false} ShortMatch(p: string) returns (key: string)
    ensures Like(p + "%", key, '\\') && |key| <= |p|
  {
    if p == [] {
      key := "";
      assert p + "%" == "%" && "%"[1..] == [] && Like("%"[1..], key[0..], '\\');
    } else if p[0] == '%' {
      key := ShortMatch(p[1..]);
      LikeByWildcard(p, key);
    } else if p == "\\" {
      key := "%";
      LikeByLastEscape(p);
    } else if p[0] == '\\' {
      var rest := ShortMatch(p[2..]);
      key := [p[1]] + rest;
      LikeByEscape(p, rest);
    } else {
      var rest := ShortMatch(p[1..]);
      key := [p[0]] + rest;
      LikeByHead(p, p[0], rest);
    }
  }

  /** A prefix that holds a special character matches a key that does not start with it. */
  lemma {:induction false} UnescapedListsForeign(p: string) returns (key: string)
    requires exists c :: c in p && c in LIKE_SPECIAL
    ensures Like(p + "%", key, '\\') && !(p <= key)
  {
    if p[0] == '%' {
      key := ShortMatch(p[1..]);
      LikeByWildcard(p, key);
    } else if p == "\\" {
      key := "%";
      LikeByLastEscape(p);
    } else if p[0] == '\\' {
      var rest := ShortMatch(p[2..]);
      key := [p[1]] + rest;
      LikeByEscape(p, rest);
    } else if p[0] == '_' {
      var rest := ShortMatch(p[1..]);
      key := "x" + rest;
      LikeByHead(p, 'x', rest);
    } else {
      assert p == [p[0]] + p[1..];
      var rest := UnescapedListsForeign(p[1..]);
      key := [p[0]] + rest;
      LikeByHead(p, p[0], rest);
      PrefixByHead(p, key);
      assert key[1..] == rest;
    }
  }

  lemma {:induction false} NothingToEscape(p: string, special: set<char>, escape: char)
    requires forall c :: c in p ==> c !in special
    ensures Escaped(p, special, escape) == p
  {
    if p != [] {
      assert p == [p[0]] + p[1..] && p[0] in p;
      NothingToEscape(p[1..], special, escape);
    }
  }

  /** Listing by a prefix that was not escaped is right exactly if the prefix holds no special character. */
  lemma UnescapedIsExactIffPlain(p: string)
    ensures (forall key :: Like(p + "%", key, '\\') <==> p <= key) <==> forall c :: c in p ==> c !in LIKE_SPECIAL
  {
    if forall c :: c in p ==> c !in LIKE_SPECIAL {
      NothingToEscape(p, LIKE_SPECIAL, '\\');
      assert LIKE_SPECIAL == {'\\', '%', '_'};
      forall key ensures Like(p + "%", key, '\\') <==> p <= key {
        LikeIsPrefix(p, key, '\\');
      }
    } else {
      var key := UnescapedListsForeign(p);
      assert !(Like(p + "%", key, '\\') <==> p <= key);
    }
  }
}
