/** SQL `LIKE` as the name searches use it (`Venue.name.like("%term%")`,
    app.py:181-183 and 388-390): '%' matches any run of characters, '_' any one
    character, every other character itself, case-sensitively. */
module Like {

  /** A search term in which `LIKE` sees no wildcard. */
  predicate Literal(t: string) {
    forall k :: 0 <= k < |t| ==> t[k] != '%' && t[k] != '_'
  }

  /** `s LIKE pattern`. A pattern without wildcards matches only itself. */
  function Matches(pattern: string, s: string): (m: bool)
    ensures Literal(pattern) ==> (m <==> s == pattern)
    decreases |pattern| + |s|
  {
    if pattern == [] then s == []
    else if pattern[0] == '%' then Matches(pattern[1..], s) || (s != [] && Matches(pattern, s[1..]))
    else if s == [] then false
    else
      assert Literal(pattern) ==> Literal(pattern[1..]) by {
        assert forall k :: 0 <= k < |pattern| - 1 ==> pattern[1..][k] == pattern[k + 1];
      }
      assert s == pattern <==> s[0] == pattern[0] && s[1..] == pattern[1..] by {
        assert s == [s[0]] + s[1..] && pattern == [pattern[0]] + pattern[1..];
      }
      (pattern[0] == '_' || pattern[0] == s[0]) && Matches(pattern[1..], s[1..])
  }

  /** `t` occurs in `s` as a contiguous substring. */
  predicate Contains(s: string, t: string) {
    exists k :: 0 <= k <= |s| && t <= s[k..]
  }

  /** The pattern the search builds from a term: `"%{}%".format(term)`. */
  function Wrap(t: string): (p: string)
    ensures |p| == |t| + 2 && p[0] == '%' && p[|p| - 1] == '%' && p[1..|p| - 1] == t
  {
    "%" + t + "%"
  }

  /** For a term without wildcards, the search pattern matches exactly the
      names that contain the term. */
  lemma WrapMatchesIffContains(t: string, s: string)
    requires Literal(t)
    ensures Matches(Wrap(t), s) <==> Contains(s, t)
  {
    assert Wrap(t) == "%" + (t + "%");
    AnyPrefixThenRest(t + "%", s);
    forall k | 0 <= k <= |s| ensures Matches(t + "%", s[k..]) <==> t <= s[k..] {
      PrefixThenAnything(t, s[k..]);
    }
  }

  /** A lone '%' matches everything. */
  lemma {:induction false} PercentMatchesAll(s: string)
    ensures Matches("%", s)
  {
    if s != [] {
      PercentMatchesAll(s[1..]);
    }
  }

  /** `t%` matches exactly the strings that begin with the literal `t`. */
  lemma {:induction false} PrefixThenAnything(t: string, s: string)
    requires Literal(t)
    ensures Matches(t + "%", s) <==> t <= s
  {
    if t == [] {
      assert t + "%" == "%";
      PercentMatchesAll(s);
    } else {
      assert (t + "%")[0] == t[0] && (t + "%")[1..] == t[1..] + "%";
      if s != [] {
        PrefixThenAnything(t[1..], s[1..]);
        assert t <= s <==> t[0] == s[0] && t[1..] <= s[1..];
      }
    }
  }

  /** `%q` matches `s` exactly when `q` matches some suffix of `s`. */
  lemma {:induction false} AnyPrefixThenRest(q: string, s: string)
    ensures Matches("%" + q, s) <==> exists k :: 0 <= k <= |s| && Matches(q, s[k..])
    decreases |s|
  {
    var p := "%" + q;
    assert p[0] == '%' && p[1..] == q;
    if s == [] {
      assert s[0..] == s;
    } else {
      AnyPrefixThenRest(q, s[1..]);
      if Matches(p, s) {
        if Matches(q, s) {
          assert s[0..] == s;
        } else {
          var k :| 0 <= k <= |s[1..]| && Matches(q, s[1..][k..]);
          assert s[1..][k..] == s[k + 1..];
        }
      } else {
        forall k | 0 <= k <= |s| ensures !Matches(q, s[k..]) {
          if k == 0 {
            assert s[0..] == s;
          } else {
            assert s[1..][k - 1..] == s[k..];
          }
        }
      }
    }
  }

  /** Matching is case-sensitive: the pattern `%hop%` does not match "The
      Musical Hop". */
  lemma LowerCaseHopMissesMusicalHop()
    ensures !Matches(Wrap("hop"), "The Musical Hop")
  {
    var s := "The Musical Hop";
    forall k | 0 <= k <= |s| ensures !("hop" <= s[k..]) {
      if k + 1 < |s| {
        assert s[k] != 'h' || s[k + 1] != 'o';
        assert s[k..][0] == s[k] && s[k..][1] == s[k + 1];
      }
    }
    WrapMatchesIffContains("hop", s);
  }

  /** The pattern `%Music%` matches both example venue names. */
  lemma MusicFindsBothExampleVenues()
    ensures Matches(Wrap("Music"), "The Musical Hop")
    ensures Matches(Wrap("Music"), "Park Square Live Music & Coffee")
  {
    var a := "The Musical Hop";
    assert "Music" <= a[4..];
    FoundAt("Music", a, 4);
    var b := "Park Square Live Music & Coffee";
    assert "Music" <= b[17..];
    FoundAt("Music", b, 17);
  }

  /** A literal term that occurs in `s` at position `k` is found by the search. */
  lemma FoundAt(t: string, s: string, k: nat)
    requires Literal(t) && k <= |s| && t <= s[k..]
    ensures Matches(Wrap(t), s)
  {
    WrapMatchesIffContains(t, s);
  }
}
