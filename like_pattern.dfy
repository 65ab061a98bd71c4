/**
 * PostgreSQL's ILIKE, as requested by the listings' `.ilike(column, pattern)`
 * and `column.ilike.pattern` filters: `%` matches any run of characters, `_`
 * matches one character, a backslash makes the next character literal, and
 * letters compare without regard to case (ASCII letters only here). PostgREST
 * reads every `*` of a like or ilike operand as `%` before the comparison.
 */
module LikePattern {
  import opened Text

  function Lower(c: char): char
  {
    if 'A' <= c <= 'Z' then (c as int + 32) as char else c
  }

  function LowerAll(s: string): (r: string)
    ensures |r| == |s| && forall i :: 0 <= i < |s| ==> r[i] == Lower(s[i])
  {
    seq(|s|, i requires 0 <= i < |s| => Lower(s[i]))
  }

  /** The characters with a meaning in an operand of PostgREST's `ilike`: LIKE's own three, and `*`. */
  predicate Special(c: char) { c == '%' || c == '_' || c == '\\' || c == '*' }

  /** A string that, used in a pattern, stands only for itself. */
  predicate Literal(s: string) { forall i :: 0 <= i < |s| ==> !Special(s[i]) }

  /** `t LIKE p` (case-sensitive). A pattern ending in a lone backslash matches nothing. */
  predicate Like(t: string, p: string)
    decreases |p| + |t|
  {
    if p == [] then t == []
    else if p[0] == '%' then Like(t, p[1..]) || (t != [] && Like(t[1..], p))
    else if p[0] == '_' then t != [] && Like(t[1..], p[1..])
    else if p[0] == '\\' then |p| >= 2 && t != [] && t[0] == p[1] && Like(t[1..], p[2..])
    else t != [] && t[0] == p[0] && Like(t[1..], p[1..])
  }

  /** `t ILIKE p`. */
  predicate ILike(t: string, p: string)
  {
    Like(LowerAll(t), LowerAll(p))
  }

  /** PostgREST's rewriting of a like or ilike operand: every `*` becomes `%`. */
  function StarsAsPercent(p: string): (r: string)
    ensures |r| == |p|
    ensures forall i :: 0 <= i < |p| ==> r[i] == (if p[i] == '*' then '%' else p[i])
  {
    seq(|p|, i requires 0 <= i < |p| => if p[i] == '*' then '%' else p[i])
  }

  /** A PostgREST `ilike` filter with operand p, as the database evaluates it. */
  predicate PostgrestILike(t: string, p: string)
  {
    ILike(t, StarsAsPercent(p))
  }

  lemma {:induction false} PercentMatchesAll(t: string)
    ensures Like(t, "%")
  {
    if t != [] {
      PercentMatchesAll(t[1..]);
    }
  }

  /** A literal followed by `%` matches exactly the strings that start with it. */
  lemma {:induction false} LiteralPrefix(t: string, q: string)
    requires Literal(q)
    ensures Like(t, q + "%") <==> |q| <= |t| && t[..|q|] == q
  {
    if q == [] {
      PercentMatchesAll(t);
      assert q + "%" == "%";
    } else {
      var q' := q[1..];
      assert (q + "%")[0] == q[0];
      assert (q + "%")[1..] == q' + "%";
      if t != [] {
        LiteralPrefix(t[1..], q');
        if |q| <= |t| {
          assert t[..|q|] == [t[0]] + t[1..][..|q'|];
          assert q == [q[0]] + q';
        }
      }
    }
  }

  /** A leading `%` lets the rest of the pattern match any suffix. */
  lemma {:induction false} LeadingPercent(t: string, p: string)
    ensures Like(t, "%" + p) <==> exists k :: 0 <= k <= |t| && Like(t[k..], p)
  {
    assert ("%" + p)[1..] == p;
    assert t[0..] == t;
    if t != [] {
      LeadingPercent(t[1..], p);
      if Like(t[1..], "%" + p) {
        var k :| 0 <= k <= |t[1..]| && Like(t[1..][k..], p);
        assert t[1..][k..] == t[k + 1..];
      }
      if k :| 0 <= k <= |t| && Like(t[k..], p) {
        if k > 0 {
          assert t[1..][k - 1..] == t[k..];
        }
      }
    }
  }

  /** `%q%` with a literal q selects exactly the strings containing q. */
  lemma SubstringPattern(t: string, q: string)
    requires Literal(q)
    ensures Like(t, "%" + q + "%") <==> Contains(t, q)
  {
    assert "%" + q + "%" == "%" + (q + "%");
    LeadingPercent(t, q + "%");
    if Like(t, "%" + q + "%") {
      var k :| 0 <= k <= |t| && Like(t[k..], q + "%");
      LiteralPrefix(t[k..], q);
      assert t[k..][..|q|] == t[k..k + |q|];
      assert ContainsAt(t, q, k);
    }
    if Contains(t, q) {
      var k :| 0 <= k <= |t| && ContainsAt(t, q, k);
      LiteralPrefix(t[k..], q);
      assert t[k..][..|q|] == t[k..k + |q|];
    }
  }

  lemma LowerAllConcat(a: string, b: string)
    ensures LowerAll(a + b) == LowerAll(a) + LowerAll(b)
  {
  }

  lemma LowerKeepsLiteral(q: string)
    requires Literal(q)
    ensures Literal(LowerAll(q))
  {
  }

  /**
   * The search the listings request: `%q%` under ILIKE, with q free of pattern
   * characters, selects exactly the values containing q regardless of case.
   */
  lemma ILikeSearch(t: string, q: string)
    requires Literal(q)
    ensures ILike(t, "%" + q + "%") <==> Contains(LowerAll(t), LowerAll(q))
  {
    LowerAllConcat("%" + q, "%");
    LowerAllConcat("%", q);
    assert LowerAll("%") == "%";
    LowerKeepsLiteral(q);
    SubstringPattern(LowerAll(t), LowerAll(q));
  }

  /** The listings' search operand `%q%`, for a q without pattern characters, is not rewritten. */
  lemma StarsAsPercentOfSearch(q: string)
    requires Literal(q)
    ensures StarsAsPercent("%" + q + "%") == "%" + q + "%"
  {
    var p := "%" + q + "%";
    forall i | 0 <= i < |p| ensures p[i] != '*' {
      if 1 <= i <= |q| {
        assert p[i] == q[i - 1];
      }
    }
  }

  /** The search as PostgREST runs it: for a literal q, a case-insensitive substring test. */
  lemma PostgrestSearch(t: string, q: string)
    requires Literal(q)
    ensures PostgrestILike(t, "%" + q + "%") <==> Contains(LowerAll(t), LowerAll(q))
  {
    StarsAsPercentOfSearch(q);
    ILikeSearch(t, q);
  }

  /** Searching for "*" selects every value, the empty one included: the operand becomes "%%%". */
  lemma StarSearchMatchesAnything(t: string)
    ensures PostgrestILike(t, "%" + "*" + "%")
  {
    var lt := LowerAll(t);
    assert StarsAsPercent("%" + "*" + "%") == "%%%";
    assert LowerAll("%%%") == "%%%";
    PercentMatchesAll(lt);
    assert "%%%"[1..] == "%%" && "%%"[1..] == "%";
    assert Like(lt, "%%");
  }

  /**
   * The search text is put into the pattern unescaped, so its own pattern
   * characters act as wildcards: searching for "_" selects exactly the non-empty values.
   */
  lemma UnderscoreSearchMatchesAnything(t: string)
    ensures PostgrestILike(t, "%" + "_" + "%") <==> t != []
  {
    var lt := LowerAll(t);
    assert StarsAsPercent("%" + "_" + "%") == "%_%";
    assert LowerAll("%_%") == "%_%";
    assert "%_%"[1..] == "_%";
    assert "_%"[1..] == "%";
    if t != [] {
      assert Like(lt[1..], "%") by { PercentMatchesAll(lt[1..]); }
      assert Like(lt, "_%");
      assert Like(lt, "%_%");
    } else {
      assert !Like(lt, "_%");
    }
  }

  /** ... although a value without an underscore does not contain the search text. */
  lemma UnderscoreNotContained()
    ensures !Contains(LowerAll("mozart"), LowerAll("_"))
  {
    var t := LowerAll("mozart");
    assert t == "mozart";
    assert LowerAll("_") == "_";
    forall i | 0 <= i <= |t| ensures !ContainsAt(t, "_", i) {
      if i + 1 <= |t| {
        assert t[i..i + 1] == [t[i]];
      }
    }
  }
}
