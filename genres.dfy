/** Decoding of the stored `genres` column (app.py:234,238; again at 443/447,
    498/502 and 542/546). The column holds the database's text rendering of a
    list of genres, such as `{"Musical Theatre",Jazz}`; the pages drop its first and
    last character, split the rest on ',' and strip '"' from both ends of every
    piece. */
module Genres {

  const Quote: char := '"'
  const Comma: char := ','

  /** Python's `g[1:-1]`: the text between the first and the last
      character, empty when `g` has fewer than two characters. */
  function Inner(g: string): (r: string)
    ensures |g| >= 2 ==> [g[0]] + r + [g[|g| - 1]] == g
    ensures |g| < 2 ==> r == []
  {
    if |g| < 2 then [] else g[1..|g| - 1]
  }

  /** Number of occurrences of `c` in `s`. */
  function Occurrences(s: string, c: char): nat {
    if s == [] then 0 else (if s[0] == c then 1 else 0) + Occurrences(s[1..], c)
  }

  /** Python's `s.split(",")`: the empty string gives one empty piece. */
  function Split(s: string): (pieces: seq<string>)
    ensures |pieces| == Occurrences(s, Comma) + 1
    ensures forall k :: 0 <= k < |pieces| ==> Comma !in pieces[k]
  {
    if s == [] then [[]]
    else
      var rest := Split(s[1..]);
      if s[0] == Comma then [[]] + rest
      else [[s[0]] + rest[0]] + rest[1..]
  }

  /** Python's `",".join(pieces)`. */
  function Join(pieces: seq<string>): string
    requires |pieces| >= 1
  {
    if |pieces| == 1 then pieces[0] else pieces[0] + [Comma] + Join(pieces[1..])
  }

  predicate QuotesOnly(s: string) {
    forall k :: 0 <= k < |s| ==> s[k] == Quote
  }

  predicate Unquoted(e: string) {
    e == [] || (e[0] != Quote && e[|e| - 1] != Quote)
  }

  /** `lstrip('"')`: a suffix of the piece, preceded only by quotes, that does
      not begin with a quote. */
  function StripLeading(p: string): (r: string)
    ensures |r| <= |p| && r == p[|p| - |r|..] && QuotesOnly(p[..|p| - |r|])
    ensures r == [] || r[0] != Quote
  {
    if p != [] && p[0] == Quote then
      var r := StripLeading(p[1..]);
      assert p[1..][|p| - 1 - |r|..] == p[|p| - |r|..];
      assert QuotesOnly(p[..|p| - |r|]) by {
        forall k | 0 <= k < |p| - |r| ensures p[k] == Quote {
          if k > 0 { assert p[k] == p[1..][..|p| - 1 - |r|][k - 1]; }
        }
      }
      r
    else
      assert p == p[0..];
      p
  }

  /** `rstrip('"')`: a prefix of the piece, followed only by quotes, that does
      not end with a quote. */
  function StripTrailing(p: string): (r: string)
    ensures |r| <= |p| && r == p[..|r|] && QuotesOnly(p[|r|..])
    ensures r == [] || r[|r| - 1] != Quote
  {
    if p != [] && p[|p| - 1] == Quote then
      var q := p[..|p| - 1];
      var r := StripTrailing(q);
      assert q[..|r|] == p[..|r|];
      assert QuotesOnly(p[|r|..]) by {
        forall k | 0 <= k < |p| - |r| ensures p[|r|..][k] == Quote {
          if k < |q| - |r| { assert p[|r|..][k] == q[|r|..][k]; }
        }
      }
      r
    else
      assert p == p[..|p|];
      p
  }

  /** Python's `p.strip('"')`: the piece with every leading and every trailing
      '"' removed, and nothing else. */
  function Strip(p: string): (e: string)
    ensures Unquoted(e)
    ensures exists i, j :: 0 <= i <= j <= |p| && e == p[i..j] && QuotesOnly(p[..i]) && QuotesOnly(p[j..])
  {
    var l := StripLeading(p);
    var e := StripTrailing(l);
    var i := |p| - |l|;
    SliceOfSuffix(p, i, |e|);
    assert e != [] ==> e[0] == l[0];
    e
  }

  lemma SliceOfSuffix(p: string, i: nat, j: nat)
    requires i + j <= |p|
    ensures p[i..][..j] == p[i..i + j] && p[i..][j..] == p[i + j..]
  {
  }

  /** The genre list a page shows for a stored genres column: one entry per
      ',' in the column's inner text, plus one; no entry contains ',' and none
      begins or ends with '"'. */
  function Decode(g: string): (genres: seq<string>)
    ensures |genres| == Occurrences(Inner(g), Comma) + 1
    ensures forall k :: 0 <= k < |genres| ==> Unquoted(genres[k]) && Comma !in genres[k]
  {
    var pieces := Split(Inner(g));
    assert forall k :: 0 <= k < |pieces| ==> Comma !in Strip(pieces[k]) by {
      forall k | 0 <= k < |pieces| ensures Comma !in Strip(pieces[k]) {
        StripKeepsCommaFree(pieces[k]);
      }
    }
    seq(|pieces|, k requires 0 <= k < |pieces| => Strip(pieces[k]))
  }

  /** Stripping only removes characters, so a comma-free piece stays comma-free. */
  lemma StripKeepsCommaFree(p: string)
    requires Comma !in p
    ensures Comma !in Strip(p)
  {
    var i, j :| 0 <= i <= j <= |p| && Strip(p) == p[i..j] && QuotesOnly(p[..i]) && QuotesOnly(p[j..]);
  }

  /** A column holding no genre at all, `{}`, decodes to one empty genre. */
  lemma EmptyListDecodesToOneEmptyGenre()
    ensures Decode("{}") == [""]
  {
    assert Inner("{}") == [];
  }

  /** Splitting undoes joining pieces that contain no ','. */
  lemma {:induction false} SplitJoin(pieces: seq<string>)
    requires |pieces| >= 1
    requires forall k :: 0 <= k < |pieces| ==> Comma !in pieces[k]
    ensures Split(Join(pieces)) == pieces
  {
    if |pieces| == 1 {
      SplitNoComma(pieces[0]);
    } else {
      SplitJoin(pieces[1..]);
      SplitPrefix(pieces[0], Join(pieces[1..]));
    }
  }

  lemma {:induction false} SplitNoComma(s: string)
    requires Comma !in s
    ensures Split(s) == [s]
  {
    if s != [] {
      assert Comma !in s[1..];
      SplitNoComma(s[1..]);
      assert [s[0]] + s[1..] == s;
    }
  }

  /** Splitting `p + "," + rest` for a comma-free `p` yields `p` and then the pieces of `rest`. */
  lemma {:induction false} SplitPrefix(p: string, rest: string)
    requires Comma !in p
    ensures Split(p + [Comma] + rest) == [p] + Split(rest)
  {
    if p == [] {
      assert p + [Comma] + rest == [Comma] + rest;
      assert ([Comma] + rest)[1..] == rest;
    } else {
      var s := p + [Comma] + rest;
      assert s[0] == p[0] && s[1..] == p[1..] + [Comma] + rest;
      assert Comma !in p[1..];
      SplitPrefix(p[1..], rest);
      assert ([p[1..]] + Split(rest))[1..] == Split(rest);
      assert [p[0]] + p[1..] == p;
    }
  }

  /** Joining undoes splitting. */
  lemma {:induction false} JoinSplit(s: string)
    ensures Join(Split(s)) == s
  {
    if s != [] {
      JoinSplit(s[1..]);
      var rest := Split(s[1..]);
      if s[0] != Comma {
        if |rest| > 1 {
          assert ([[s[0]] + rest[0]] + rest[1..])[1..] == rest[1..];
          assert Join(rest) == rest[0] + [Comma] + Join(rest[1..]);
        }
      } else {
        assert ([[]] + rest)[1..] == rest;
      }
    }
  }

  /** Stripping an unquoted genre, bare or wrapped in one pair of '"', gives it back. */
  lemma StripUnquoted(e: string, quoted: bool)
    requires Unquoted(e)
    ensures Strip(if quoted then [Quote] + e + [Quote] else e) == e
  {
    var p := if quoted then [Quote] + e + [Quote] else e;
    var n := if !quoted then 0 else if e == [] then 2 else 1;
    if e != [] {
      assert p[n..] == e + p[n + |e|..];
      assert p[n] == e[0];
    }
    LeadingQuotesExactly(p, n);
    var l := p[n..];
    assert QuotesOnly(l[|e|..]);
    assert l[..|e|] == e;
    if e != [] {
      assert l[|e| - 1] == e[|e| - 1];
    }
    TrailingQuotesExactly(l, |e|);
  }

  /** `lstrip('"')` removes exactly the run of quotes that starts the piece. */
  lemma {:induction false} LeadingQuotesExactly(p: string, n: nat)
    requires n <= |p| && QuotesOnly(p[..n]) && (n == |p| || p[n] != Quote)
    ensures StripLeading(p) == p[n..]
  {
    if n == 0 {
      assert p[0..] == p;
    } else {
      assert p[0] == p[..n][0];
      var run := p[1..][..n - 1];
      assert QuotesOnly(run) by {
        forall k | 0 <= k < n - 1 ensures run[k] == Quote {
          assert run[k] == p[..n][k + 1];
        }
      }
      LeadingQuotesExactly(p[1..], n - 1);
      assert p[1..][n - 1..] == p[n..];
    }
  }

  /** `rstrip('"')` removes exactly the run of quotes that ends the piece. */
  lemma {:induction false} TrailingQuotesExactly(p: string, m: nat)
    requires m <= |p| && QuotesOnly(p[m..]) && (m == 0 || p[m - 1] != Quote)
    ensures StripTrailing(p) == p[..m]
  {
    if m == |p| {
      assert p[..|p|] == p;
    } else {
      var q := p[..|p| - 1];
      assert p[|p| - 1] == p[m..][|p| - 1 - m];
      assert QuotesOnly(q[m..]) by {
        forall k | 0 <= k < |q| - m ensures q[m..][k] == Quote {
          assert q[m..][k] == p[m..][k];
        }
      }
      TrailingQuotesExactly(q, m);
      assert q[..m] == p[..m];
    }
  }

  /** The database's text rendering of a non-empty list of genres, each one
      written bare or inside '"' as the database chooses. */
  function Render(genres: seq<string>, quoted: seq<bool>): string
    requires |genres| == |quoted| >= 1
  {
    var pieces := seq(|genres|, k requires 0 <= k < |genres| =>
                        if quoted[k] then [Quote] + genres[k] + [Quote] else genres[k]);
    ['{'] + Join(pieces) + ['}']
  }

  /** Decoding gives back every rendered genre that contains no ',', no '"'
      and no backslash (the database escapes the last two inside quotes). */
  lemma DecodeRender(genres: seq<string>, quoted: seq<bool>)
    requires |genres| == |quoted| >= 1
    requires forall k :: 0 <= k < |genres| ==> Comma !in genres[k] && Quote !in genres[k] && '\\' !in genres[k]
    ensures Decode(Render(genres, quoted)) == genres
  {
    var pieces := seq(|genres|, k requires 0 <= k < |genres| =>
                        if quoted[k] then [Quote] + genres[k] + [Quote] else genres[k]);
    var body := Join(pieces);
    assert Inner(['{'] + body + ['}']) == body;
    forall k | 0 <= k < |pieces| ensures Comma !in pieces[k] {
      if quoted[k] {
        assert pieces[k] == [Quote] + genres[k] + [Quote];
      }
    }
    SplitJoin(pieces);
    forall k | 0 <= k < |genres| ensures Strip(pieces[k]) == genres[k] {
      StripUnquoted(genres[k], quoted[k]);
    }
  }
}
