/** String helpers: prefixes, and `trim` with what it does to concatenations. */
module Text {

  predicate StartsWith(s: string, prefix: string) {
    |s| >= |prefix| && s[..|prefix|] == prefix
  }

  /** White space as `trim` removes it. */
  predicate IsSpace(c: char) {
    || '\t' <= c <= '\r' || c == ' ' || c == '\U{00A0}' || c == '\U{1680}' || '\U{2000}' <= c <= '\U{200A}'
    || c == '\U{2028}' || c == '\U{2029}' || c == '\U{202F}' || c == '\U{205F}' || c == '\U{3000}' || c == '\U{FEFF}'
  }

  function TrimStart(s: string): (r: string)
    ensures |r| <= |s|
    ensures r == "" || !IsSpace(r[0])
  {
    if s != "" && IsSpace(s[0]) then TrimStart(s[1..]) else s
  }

  function TrimEnd(s: string): (r: string)
    ensures |r| <= |s| && r == s[..|r|]
    ensures r == "" || !IsSpace(r[|r| - 1])
  {
    if s != "" && IsSpace(s[|s| - 1]) then TrimEnd(s[..|s| - 1]) else s
  }

  function Trim(s: string): (r: string)
    ensures |r| <= |s|
    ensures r == "" || (!IsSpace(r[0]) && !IsSpace(r[|r| - 1]))
  {
    TrimEnd(TrimStart(s))
  }

  lemma {:induction false} TrimEndAppend(a: string, b: string)
    ensures TrimEnd(a + b) == if TrimEnd(b) == "" then TrimEnd(a) else a + TrimEnd(b)
  {
    if b == "" {
      assert a + b == a;
    } else if IsSpace(b[|b| - 1]) {
      TrimEndAppend(a, b[..|b| - 1]);
      assert (a + b)[..|a + b| - 1] == a + b[..|b| - 1];
    }
  }

  lemma {:induction false} TrimEndSpaces(s: string)
    ensures TrimEnd(s) == "" <==> forall c :: c in s ==> IsSpace(c)
  {
    if s != "" && IsSpace(s[|s| - 1]) {
      TrimEndSpaces(s[..|s| - 1]);
      assert s == s[..|s| - 1] + [s[|s| - 1]];
    } else if s != "" {
      assert s[|s| - 1] in s;
    }
  }

  lemma {:induction false} TrimStartEnd(s: string)
    ensures Trim(TrimEnd(s)) == Trim(s)
    ensures Trim(s) == "" <==> TrimEnd(s) == ""
  {
    if s != "" && IsSpace(s[0]) {
      TrimStartEnd(s[1..]);
      TrimEndCons(s[0], s[1..]);
      assert s == [s[0]] + s[1..];
      if TrimEnd(s) != "" {
        assert TrimEnd(s)[1..] == TrimEnd(s[1..]);
      }
    } else if s != "" {
      assert TrimStart(s) == s;
      TrimEndFirst(s);
      TrimEndIdle(TrimEnd(s));
    }
  }

  lemma {:induction false} TrimEndCons(c: char, s: string)
    ensures TrimEnd([c] + s) ==
            if TrimEnd(s) == "" then (if IsSpace(c) then "" else [c]) else [c] + TrimEnd(s)
  {
    var t := [c] + s;
    if s == "" {
      assert t == [c] && t[..0] == "";
    } else if IsSpace(s[|s| - 1]) {
      TrimEndCons(c, s[..|s| - 1]);
      assert t[..|t| - 1] == [c] + s[..|s| - 1];
    }
  }

  lemma TrimEndFirst(s: string)
    requires s != "" && !IsSpace(s[0])
    ensures TrimEnd(s) != "" && TrimEnd(s)[0] == s[0]
  {
    TrimEndSpaces(s);
    assert s[0] in s;
  }

  lemma TrimEndIdle(s: string)
    requires s == "" || !IsSpace(s[|s| - 1])
    ensures TrimEnd(s) == s
  {
  }

  lemma TrimStartIdle(s: string)
    requires s != "" && !IsSpace(s[0])
    ensures TrimStart(s) == s
  {
  }

  lemma TrimHead(a: string, w: string)
    requires a != "" && !IsSpace(a[0]) && !IsSpace(a[|a| - 1])
    ensures Trim(a + ([' '] + w)) == if Trim(w) == "" then a else a + ([' '] + TrimEnd(w))
  {
    var tail := [' '] + w;
    assert (a + tail)[0] == a[0];
    TrimStartIdle(a + tail);
    TrimEndAppend(a, tail);
    TrimEndCons(' ', w);
    TrimStartEnd(w);
    TrimEndIdle(a);
  }
}
