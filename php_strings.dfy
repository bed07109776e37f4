/** The PHP string built-ins the library relies on: `trim`, `rtrim`,
    `empty`/boolean conversion of strings, `basename` and
    `pathinfo(..., PATHINFO_EXTENSION)`. */
module PhpStrings {

  /** The characters `trim()` strips when no character list is given:
      space, tab, newline, carriage return, NUL and vertical tab. */
  const TrimCharacters: set<char> := {' ', '\t', '\n', '\r', '\0', '\U{000B}'}

  /** `empty($s)` for a string, which is also `!$s`: only "" and "0" are falsy. */
  predicate Empty(s: string) {
    s == "" || s == "0"
  }

  /** `ltrim($s, $chars)`: the longest suffix of `s` that does not start with a
      character of `chars`. */
  function TrimLeft(s: string, chars: set<char>): (r: string)
    ensures |r| <= |s| && r == s[|s| - |r|..]
    ensures r == [] || r[0] !in chars
    ensures forall i :: 0 <= i < |s| - |r| ==> s[i] in chars
  {
    if |s| > 0 && s[0] in chars then TrimLeft(s[1..], chars) else s
  }

  /** `rtrim($s, $chars)`: the longest prefix of `s` that does not end with a
      character of `chars`. */
  function TrimRight(s: string, chars: set<char>): (r: string)
    ensures |r| <= |s| && r == s[..|r|]
    ensures r == [] || r[|r| - 1] !in chars
    ensures forall i :: |r| <= i < |s| ==> s[i] in chars
  {
    if |s| > 0 && s[|s| - 1] in chars then TrimRight(s[..|s| - 1], chars) else s
  }

  /** Every character of `p` is one `trim()` strips. */
  predicate Stripped(p: string) {
    forall i :: 0 <= i < |p| ==> p[i] in TrimCharacters
  }

  /** `r` is an infix of `s` and every character of `s` outside it is one
      `trim()` strips. */
  predicate StrippedAround(s: string, r: string) {
    exists i, j :: 0 <= i <= j <= |s| && r == s[i..j] && Stripped(s[..i]) && Stripped(s[j..])
  }

  /** `trim($s)` with the default character list: the string left once the
      stripped characters at either end are removed. */
  function Trim(s: string): (r: string)
    ensures r == [] || (r[0] !in TrimCharacters && r[|r| - 1] !in TrimCharacters)
  {
    TrimRight(TrimLeft(s, TrimCharacters), TrimCharacters)
  }

  /** `trim` removes characters only at the ends, and only stripped ones:
      its result is an infix of the input with nothing but stripped
      characters around it. */
  lemma TrimIsStrippedInfix(s: string)
    ensures StrippedAround(s, Trim(s))
  {
    var left := TrimLeft(s, TrimCharacters);
    var r := TrimRight(left, TrimCharacters);
    TrimmedInfix(s, left, r);
    var i := |s| - |left|;
    assert Stripped(s[..i]) && Stripped(s[i + |r|..]);
  }

  /** A prefix of a suffix of `s` whose dropped characters at either end are
      all stripped is an infix of `s` with stripped characters around it. */
  lemma TrimmedInfix(s: string, left: string, r: string)
    requires |left| <= |s| && left == s[|s| - |left|..]
    requires forall k :: 0 <= k < |s| - |left| ==> s[k] in TrimCharacters
    requires |r| <= |left| && r == left[..|r|]
    requires forall k :: |r| <= k < |left| ==> left[k] in TrimCharacters
    ensures var i := |s| - |left|;
      && r == s[i..i + |r|]
      && (forall k :: 0 <= k < i ==> s[k] in TrimCharacters)
      && (forall k :: i + |r| <= k < |s| ==> s[k] in TrimCharacters)
  {
    var i := |s| - |left|;
    forall k | i + |r| <= k < |s| ensures s[k] in TrimCharacters {
      assert s[k] == left[k - i];
    }
  }

  /** A string that neither starts nor ends with a stripped character is left
      as it is by `trim`, and `trim` is therefore idempotent. */
  lemma {:induction false} TrimFixesTrimmed(s: string)
    requires s == [] || (s[0] !in TrimCharacters && s[|s| - 1] !in TrimCharacters)
    ensures Trim(s) == s
  {
    assert TrimLeft(s, TrimCharacters) == s;
    assert TrimRight(s, TrimCharacters) == s;
  }

  lemma TrimIdempotent(s: string)
    ensures Trim(Trim(s)) == Trim(s)
  {
    TrimFixesTrimmed(Trim(s));
  }

  /** Stripped characters in front of `s` do not change its `ltrim`. */
  lemma {:induction false} TrimLeftDropsStripped(p: string, s: string, chars: set<char>)
    requires forall i :: 0 <= i < |p| ==> p[i] in chars
    ensures TrimLeft(p + s, chars) == TrimLeft(s, chars)
  {
    if p == [] {
      assert p + s == s;
    } else {
      assert (p + s)[1..] == p[1..] + s;
      TrimLeftDropsStripped(p[1..], s, chars);
    }
  }

  /** Stripped characters after `s` do not change its `rtrim`. */
  lemma {:induction false} TrimRightDropsStripped(s: string, q: string, chars: set<char>)
    requires forall i :: 0 <= i < |q| ==> q[i] in chars
    ensures TrimRight(s + q, chars) == TrimRight(s, chars)
  {
    if q == [] {
      assert s + q == s;
    } else {
      var t := s + q;
      assert t[..|t| - 1] == s + q[..|q| - 1];
      TrimRightDropsStripped(s, q[..|q| - 1], chars);
    }
  }

  /** `ltrim` of `s + q`: what `ltrim` keeps of `s`, followed by `q`, unless
      all of `s` is stripped, in which case it is `ltrim` of `q`. */
  lemma {:induction false} TrimLeftAppend(s: string, q: string, chars: set<char>)
    ensures TrimLeft(s, chars) != [] ==> TrimLeft(s + q, chars) == TrimLeft(s, chars) + q
    ensures TrimLeft(s, chars) == [] ==> TrimLeft(s + q, chars) == TrimLeft(q, chars)
  {
    if s == [] {
      assert s + q == q;
    } else if s[0] in chars {
      assert (s + q)[1..] == s[1..] + q;
      TrimLeftAppend(s[1..], q, chars);
    } else {
      assert (s + q)[0] == s[0];
    }
  }

  /** Runs of stripped characters on either side of `s` do not change its
      `trim`. */
  lemma TrimSurrounded(p: string, s: string, q: string)
    requires Stripped(p) && Stripped(q)
    ensures Trim(p + s + q) == Trim(s)
  {
    var chars := TrimCharacters;
    assert p + s + q == p + (s + q);
    TrimLeftDropsStripped(p, s + q, chars);
    TrimLeftAppend(s, q, chars);
    if TrimLeft(s, chars) != [] {
      TrimRightDropsStripped(TrimLeft(s, chars), q, chars);
    } else {
      TrimLeftDropsStripped(q, [], chars);
      assert q + [] == q;
    }
  }

  /** The text after the last occurrence of `c` in `s`, or all of `s` when `c`
      does not occur. */
  function AfterLast(s: string, c: char): (r: string)
    ensures |r| <= |s| && r == s[|s| - |r|..]
    ensures c !in r
    ensures |r| < |s| ==> s[|s| - |r| - 1] == c
  {
    if s == [] then []
    else if s[|s| - 1] == c then []
    else AfterLast(s[..|s| - 1], c) + [s[|s| - 1]]
  }

  lemma {:induction false} AfterLastAppend(s: string, c: char, t: string)
    requires c !in t
    ensures AfterLast(s + [c] + t, c) == t
  {
    if t != [] {
      var u, init := s + [c] + t, t[..|t| - 1];
      assert u[..|u| - 1] == s + [c] + init;
      assert c !in init by {
        forall x | x in init ensures x in t { }
      }
      AfterLastAppend(s, c, init);
      assert t == init + [t[|t| - 1]];
    }
  }

  lemma NotInConcat(c: char, s: string, t: string)
    requires c !in s && c !in t
    ensures c !in s + t
  {
  }

  /** `basename($path)`: trailing slashes are dropped, then the text after the
      last remaining slash is kept. */
  function Basename(path: string): (r: string)
    ensures '/' !in r
    ensures var t := TrimRight(path, {'/'});
      && |r| <= |t| && r == t[|t| - |r|..]
      && (|r| < |t| ==> t[|t| - |r| - 1] == '/')
  {
    var t := TrimRight(path, {'/'});
    AfterLast(t, '/')
  }

  /** `r` is what follows the last `c` of `s`: a proper suffix of `s`, right
      after a `c`, holding no `c` itself. */
  predicate FollowsLast(s: string, c: char, r: string)
  {
    |r| < |s| && r == s[|s| - |r|..] && s[|s| - |r| - 1] == c && c !in r
  }

  /** When the name holds a dot, the text after its last dot is a proper
      suffix and lies right after that dot; it has no slash if the name has none. */
  lemma AfterLastDot(base: string, r: string)
    requires '.' in base && '.' !in r
    requires |r| <= |base| && r == base[|base| - |r|..]
    requires |r| < |base| ==> base[|base| - |r| - 1] == '.'
    ensures FollowsLast(base, '.', r) && ('/' !in base ==> '/' !in r)
  {
    if '/' !in base {
      forall k | 0 <= k < |r| ensures r[k] != '/' {
        assert r[k] == base[|base| - |r| + k];
      }
    }
  }

  /** The extension of a file name: the text after its last dot, or empty
      when the name has no dot. */
  function NameExtension(name: string): (r: string)
    ensures '.' !in r && |r| <= |name|
    ensures '/' !in name ==> '/' !in r
    ensures '.' !in name ==> r == ""
    ensures '.' in name ==> FollowsLast(name, '.', r)
  {
    if '.' in name then
      var r := AfterLast(name, '.');
      AfterLastDot(name, r);
      r
    else ""
  }

  /** PHP `pathinfo($path, PATHINFO_EXTENSION)`: the extension of the
      basename. */
  function PathExtension(path: string): (r: string)
    ensures '.' !in r && '/' !in r
    ensures |r| <= |path|
    ensures '.' !in Basename(path) ==> r == ""
    ensures '.' in Basename(path) ==> FollowsLast(Basename(path), '.', r)
  {
    NameExtension(Basename(path))
  }

  /** A path spelled `dir/stem.ext` has extension `ext`, whatever the directory
      and however many dots the stem holds. */
  lemma PathExtensionOfSpelledPath(dir: string, stem: string, ext: string)
    requires '/' !in stem && '/' !in ext && '.' !in ext
    ensures PathExtension(dir + "/" + stem + "." + ext) == ext
  {
    var name := stem + ['.'] + ext;
    var p := dir + ['/'] + name;
    assert p == dir + "/" + stem + "." + ext;
    assert '/' !in name by {
      NotInConcat('/', stem, ['.']);
      NotInConcat('/', stem + ['.'], ext);
    }
    assert p[|p| - 1] == name[|name| - 1];
    assert name[|name| - 1] in name;
    assert TrimRight(p, {'/'}) == p;
    AfterLastAppend(dir, '/', name);
    assert Basename(p) == name;
    assert name[|stem|] == '.';
    assert '.' in name;
    AfterLastAppend(stem, '.', ext);
  }

  /** A basename without a dot has no extension, so `pathinfo` yields "". */
  lemma NoDotNoExtension(path: string)
    requires '.' !in path
    ensures PathExtension(path) == ""
  {
    var base := Basename(path);
    var t := TrimRight(path, {'/'});
    assert '.' !in base by {
      forall i | 0 <= i < |base| ensures base[i] != '.' {
        assert base[i] == t[|t| - |base| + i] == path[|t| - |base| + i];
      }
    }
  }
}
