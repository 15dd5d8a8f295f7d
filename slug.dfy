/** The slug builder shared by events, articles and job posts: lower-case the
    title, turn every run of characters outside `a-z0-9` into one dash, drop
    a leading and a trailing dash, then append a dash and the timestamp. */
module Slug {

  predicate IsSlugChar(c: char) {
    'a' <= c <= 'z' || '0' <= c <= '9'
  }

  /** ASCII lower-casing (see README: non-ASCII case mapping is left out). */
  function Lower(c: char): char {
    if 'A' <= c <= 'Z' then (c as int + 32) as char else c
  }

  function LowerAll(s: string): (r: string)
    ensures |r| == |s|
    ensures forall i :: 0 <= i < |s| ==> r[i] == Lower(s[i])
  {
    seq(|s|, i requires 0 <= i < |s| => Lower(s[i]))
  }

  /** `.replace(/[^a-z0-9]+/g, '-')`: each maximal run of non-slug
      characters becomes a single dash. Defined on the last character so
      that a run is recognised by the character before it. */
  function Collapse(s: string): string {
    if s == [] then []
    else
      var r := Collapse(s[..|s| - 1]);
      var c := s[|s| - 1];
      if IsSlugChar(c) then r + [c]
      else if |s| > 1 && !IsSlugChar(s[|s| - 2]) then r
      else r + ['-']
  }

  /** `.replace(/(^-|-$)/g, '')`: one leading and one trailing dash go. */
  function TrimDash(t: string): string {
    var t1 := if |t| > 0 && t[0] == '-' then t[1..] else t;
    if |t1| > 0 && t1[|t1| - 1] == '-' then t1[..|t1| - 1] else t1
  }

  function SlugBase(title: string): string {
    TrimDash(Collapse(LowerAll(title)))
  }

  /** Decimal digits of a timestamp, as `${Date.now()}` prints it. */
  function Digits(n: nat): (r: string)
    ensures |r| > 0
    ensures forall i :: 0 <= i < |r| ==> '0' <= r[i] <= '9'
  {
    if n < 10 then [('0' as int + n) as char]
    else Digits(n / 10) + [('0' as int + n % 10) as char]
  }

  /** `${base}-${Date.now()}`. */
  function SlugOf(title: string, timestamp: nat): string {
    SlugBase(title) + "-" + Digits(timestamp)
  }

  predicate NoDoubleDash(s: string) {
    forall i :: 0 <= i < |s| - 1 ==> !(s[i] == '-' && s[i + 1] == '-')
  }

  predicate SlugAlphabet(s: string) {
    forall i :: 0 <= i < |s| ==> IsSlugChar(s[i]) || s[i] == '-'
  }

  /** The shape every slug base has. */
  predicate WellFormedBase(b: string) {
    && SlugAlphabet(b)
    && NoDoubleDash(b)
    && (|b| > 0 ==> b[0] != '-' && b[|b| - 1] != '-')
  }

  /** The slug characters of a string, in order (dashes and everything else
      dropped). */
  function Alnum(s: string): (r: string)
    ensures forall i :: 0 <= i < |r| ==> IsSlugChar(r[i])
  {
    if s == [] then []
    else Alnum(s[..|s| - 1]) + (if IsSlugChar(s[|s| - 1]) then [s[|s| - 1]] else [])
  }

  lemma {:induction false} CollapseShape(s: string)
    ensures SlugAlphabet(Collapse(s)) && NoDoubleDash(Collapse(s))
    ensures |Collapse(s)| > 0 <==> |s| > 0
    ensures |s| > 0 ==> (Collapse(s)[|Collapse(s)| - 1] == '-' <==> !IsSlugChar(s[|s| - 1]))
  {
    if s != [] {
      var p := s[..|s| - 1];
      CollapseShape(p);
      var r := Collapse(p);
      var c := s[|s| - 1];
      if IsSlugChar(c) {
        assert Collapse(s) == r + [c];
      } else if |s| > 1 && !IsSlugChar(s[|s| - 2]) {
        assert p[|p| - 1] == s[|s| - 2];
        assert Collapse(s) == r;
      } else {
        assert Collapse(s) == r + ['-'];
        if |p| > 0 {
          assert p[|p| - 1] == s[|s| - 2];
        }
      }
    }
  }

  lemma TrimDashShape(t: string)
    requires SlugAlphabet(t) && NoDoubleDash(t)
    ensures WellFormedBase(TrimDash(t))
  {
    var t1 := if |t| > 0 && t[0] == '-' then t[1..] else t;
    assert SlugAlphabet(t1) && NoDoubleDash(t1);
    assert |t1| > 0 ==> t1[0] != '-' by {
      if |t| > 0 && t[0] == '-' && |t1| > 0 {
        assert t1[0] == t[1];
      }
    }
    var t2 := if |t1| > 0 && t1[|t1| - 1] == '-' then t1[..|t1| - 1] else t1;
    assert TrimDash(t) == t2;
    if |t1| > 0 && t1[|t1| - 1] == '-' && |t2| > 0 {
      assert t2[|t2| - 1] == t1[|t1| - 2];
    }
  }

  /** Every slug base is lower-case, uses only `a-z`, `0-9` and `-`, has no
      two dashes in a row and neither starts nor ends with a dash. */
  lemma SlugBaseWellFormed(title: string)
    ensures WellFormedBase(SlugBase(title))
  {
    CollapseShape(LowerAll(title));
    TrimDashShape(Collapse(LowerAll(title)));
  }

  /** The slug is the base, a dash and the timestamp's digits, so the part
      after the last dash identifies the time of creation. */
  lemma SlugOfShape(title: string, timestamp: nat)
    ensures var s := SlugOf(title, timestamp);
      && s[..|SlugBase(title)|] == SlugBase(title)
      && s[|SlugBase(title)|] == '-'
      && s[|SlugBase(title)| + 1..] == Digits(timestamp)
      && '-' !in s[|SlugBase(title)| + 1..]
  {
    var d := Digits(timestamp);
    assert forall i :: 0 <= i < |d| ==> d[i] != '-';
  }

  lemma AlnumAppend(a: string, b: string)
    ensures Alnum(a + b) == Alnum(a) + Alnum(b)
    decreases |b|
  {
    if b == [] {
      assert a + b == a;
    } else {
      var b' := b[..|b| - 1];
      assert (a + b)[..|a + b| - 1] == a + b';
      AlnumAppend(a, b');
    }
  }

  /** Collapsing keeps the letters and digits, in order. */
  lemma {:induction false} CollapseKeepsAlnum(s: string)
    ensures Alnum(Collapse(s)) == Alnum(s)
  {
    if s != [] {
      var p := s[..|s| - 1];
      CollapseKeepsAlnum(p);
      var c := s[|s| - 1];
      if IsSlugChar(c) {
        AlnumAppend(Collapse(p), [c]);
      } else if |s| > 1 && !IsSlugChar(s[|s| - 2]) {
      } else {
        AlnumAppend(Collapse(p), ['-']);
      }
    }
  }

  lemma TrimKeepsAlnum(t: string)
    ensures Alnum(TrimDash(t)) == Alnum(t)
  {
    var t1 := if |t| > 0 && t[0] == '-' then t[1..] else t;
    if |t| > 0 && t[0] == '-' {
      assert t == ['-'] + t1;
      AlnumAppend(['-'], t1);
      assert Alnum(['-']) == Alnum([]) + [];
    }
    if |t1| > 0 && t1[|t1| - 1] == '-' {
      assert t1 == t1[..|t1| - 1] + ['-'];
      AlnumAppend(t1[..|t1| - 1], ['-']);
      assert Alnum(['-']) == Alnum([]) + [];
    }
  }

  /** The slug base keeps exactly the letters and digits of the lower-cased
      title, in their order: only separators are rewritten. */
  lemma SlugBaseKeepsAlnum(title: string)
    ensures Alnum(SlugBase(title)) == Alnum(LowerAll(title))
  {
    CollapseKeepsAlnum(LowerAll(title));
    TrimKeepsAlnum(Collapse(LowerAll(title)));
  }

  lemma {:induction false} CollapseFixes(s: string)
    requires SlugAlphabet(s) && NoDoubleDash(s)
    ensures Collapse(s) == s
  {
    if s != [] {
      var p := s[..|s| - 1];
      assert SlugAlphabet(p) && NoDoubleDash(p);
      CollapseFixes(p);
      var c := s[|s| - 1];
      if !IsSlugChar(c) && |s| > 1 {
        assert c == '-';
        assert s[|s| - 2] != '-';
      }
      assert s == p + [c];
    }
  }

  /** A slug base is its own slug base: building a slug from a slug's base
      changes nothing. */
  lemma SlugBaseIdempotent(title: string)
    ensures SlugBase(SlugBase(title)) == SlugBase(title)
  {
    var b := SlugBase(title);
    SlugBaseWellFormed(title);
    assert LowerAll(b) == b;
    CollapseFixes(b);
  }
}
