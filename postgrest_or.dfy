/**
 * The filter string handed to `.or(...)`: comma-separated conditions, each
 * written `column.operator.operand`, sent as `or=(...)`. Only the plain form is
 * modelled here; PostgREST's double quoting and nested `and(...)`/`or(...)`
 * groups are not. An unquoted operand ends at the next `,` or `)`.
 */
module PostgrestOr {
  import opened Wrappers

  /** The pieces of s between occurrences of sep, in order. */
  function Split(s: string, sep: char): (parts: seq<string>)
    ensures |parts| >= 1
    ensures forall i :: 0 <= i < |parts| ==> sep !in parts[i]
  {
    if s == [] then [[]]
    else
      var rest := Split(s[1..], sep);
      if s[0] == sep then [[]] + rest else [[s[0]] + rest[0]] + rest[1..]
  }

  /** The pieces put back together with sep between them. */
  function Join(parts: seq<string>, sep: char): string
    requires |parts| >= 1
  {
    if |parts| == 1 then parts[0] else parts[0] + [sep] + Join(parts[1..], sep)
  }

  /** Splitting loses nothing: joining the pieces gives back the string. */
  lemma {:induction false} JoinSplit(s: string, sep: char)
    ensures Join(Split(s, sep), sep) == s
  {
    if s != [] {
      var rest := Split(s[1..], sep);
      JoinSplit(s[1..], sep);
      if s[0] == sep {
        assert Split(s, sep)[1..] == rest;
      } else if |rest| == 1 {
        assert Join(Split(s, sep), sep) == [s[0]] + rest[0];
      } else {
        var parts := Split(s, sep);
        assert parts[1..] == rest[1..];
        assert Join(rest, sep) == rest[0] + [sep] + Join(rest[1..], sep);
      }
    }
  }

  lemma {:induction false} SplitWithoutSeparator(a: string, sep: char)
    requires sep !in a
    ensures Split(a, sep) == [a]
  {
    if a != [] {
      SplitWithoutSeparator(a[1..], sep);
      assert a == [a[0]] + a[1..];
    }
  }

  lemma {:induction false} SplitAtFirst(a: string, b: string, sep: char)
    requires sep !in a
    ensures Split(a + [sep] + b, sep) == [a] + Split(b, sep)
  {
    var s := a + [sep] + b;
    if a == [] {
      assert s[1..] == b;
    } else {
      assert s[1..] == a[1..] + [sep] + b;
      SplitAtFirst(a[1..], b, sep);
      assert a == [a[0]] + a[1..];
    }
  }

  /** A separator-free piece between two separators is one of the parts after the first. */
  lemma {:induction false} SplitKeepsEnclosed(x: string, m: string, y: string, sep: char)
    requires sep !in m
    ensures m in Split(x + [sep] + m + [sep] + y, sep)[1..]
  {
    var s := x + [sep] + m + [sep] + y;
    if x == [] {
      assert s[1..] == m + [sep] + y;
      SplitAtFirst(m, y, sep);
      assert Split(s, sep)[1..] == Split(s[1..], sep);
    } else {
      assert s[1..] == x[1..] + [sep] + m + [sep] + y;
      SplitKeepsEnclosed(x[1..], m, y, sep);
    }
  }

  /** Splitting yields one more part than there are separators. */
  lemma {:induction false} SeparatorCount(s: string, sep: char)
    ensures multiset(s)[sep] == |Split(s, sep)| - 1
  {
    if s != [] {
      SeparatorCount(s[1..], sep);
      assert s == [s[0]] + s[1..];
    }
  }

  /** The position of the first c in s, if any. */
  function IndexOf(s: string, c: char): (r: Option<nat>)
    ensures r.Some? ==> r.value < |s| && s[r.value] == c && c !in s[..r.value]
    ensures r.None? ==> c !in s
  {
    if s == [] then None
    else if s[0] == c then Some(0)
    else match IndexOf(s[1..], c)
      case None => None
      case Some(i) => assert s[..i + 1] == [s[0]] + s[1..][..i]; Some(i + 1)
  }

  /** One condition `column.operator.operand`. */
  datatype Term = Term(column: string, operator: string, operand: string)

  function PrintTerm(t: Term): string
  {
    t.column + "." + t.operator + "." + t.operand
  }

  /**
   * Column and operator end at the first two dots; the operand is the rest and
   * may hold dots. A `)` in the operand would close the `or=(...)` group early,
   * leaving text PostgREST cannot read, so such a condition is malformed.
   */
  function ParseTerm(s: string): Option<Term>
  {
    match IndexOf(s, '.')
    case None => None
    case Some(i) =>
      var rest := s[i + 1..];
      match IndexOf(rest, '.')
      case None => None
      case Some(j) =>
        var operand := rest[j + 1..];
        if ')' in operand then None else Some(Term(s[..i], rest[..j], operand))
  }

  lemma IndexOfFirst(a: string, b: string, c: char)
    requires c !in a
    ensures IndexOf(a + [c] + b, c) == Some(|a|)
  {
    var s := a + [c] + b;
    assert s[|a|] == c;
    assert s[..|a|] == a;
  }

  /**
   * Printing then parsing gives the condition back when column and operator hold
   * no dot and the operand no `)`; an operand with a `)` does not parse.
   */
  lemma ParsePrintTerm(t: Term)
    requires '.' !in t.column && '.' !in t.operator
    ensures ')' !in t.operand ==> ParseTerm(PrintTerm(t)) == Some(t)
    ensures ')' in t.operand ==> ParseTerm(PrintTerm(t)) == None
  {
    var s := PrintTerm(t);
    assert s == t.column + ['.'] + (t.operator + "." + t.operand);
    IndexOfFirst(t.column, t.operator + "." + t.operand, '.');
    var rest := s[|t.column| + 1..];
    assert rest == t.operator + ['.'] + t.operand;
    IndexOfFirst(t.operator, t.operand, '.');
    assert s[..|t.column|] == t.column;
    assert rest[..|t.operator|] == t.operator;
    assert rest[|t.operator| + 1..] == t.operand;
  }

  function ParseTerms(parts: seq<string>): Option<seq<Term>>
  {
    if parts == [] then Some([])
    else
      var head, tail := ParseTerm(parts[0]), ParseTerms(parts[1..]);
      if head.Some? && tail.Some? then Some([head.value] + tail.value) else None
  }

  /** One malformed condition makes the whole list unreadable. */
  lemma {:induction false} ParseTermsMalformed(parts: seq<string>, i: nat)
    requires i < |parts| && ParseTerm(parts[i]).None?
    ensures ParseTerms(parts).None?
  {
    if i > 0 {
      ParseTermsMalformed(parts[1..], i - 1);
    }
  }

  /** The conditions of an `.or(...)` string; None when one of them is malformed. */
  function ParseOr(s: string): Option<seq<Term>>
  {
    ParseTerms(Split(s, ','))
  }

  /**
   * Two printed conditions joined by a comma parse back to the two conditions,
   * unless an operand holds a `)`, in which case the string does not parse.
   */
  lemma ParseTwoTerms(t1: Term, t2: Term)
    requires '.' !in t1.column && '.' !in t1.operator && ',' !in PrintTerm(t1)
    requires '.' !in t2.column && '.' !in t2.operator && ',' !in PrintTerm(t2)
    ensures ')' !in t1.operand && ')' !in t2.operand ==> ParseOr(PrintTerm(t1) + "," + PrintTerm(t2)) == Some([t1, t2])
    ensures ')' in t1.operand || ')' in t2.operand ==> ParseOr(PrintTerm(t1) + "," + PrintTerm(t2)) == None
  {
    SplitAtFirst(PrintTerm(t1), PrintTerm(t2), ',');
    SplitWithoutSeparator(PrintTerm(t2), ',');
    assert PrintTerm(t1) + "," + PrintTerm(t2) == PrintTerm(t1) + [','] + PrintTerm(t2);
    ParsePrintTerm(t1);
    ParsePrintTerm(t2);
    var parts := [PrintTerm(t1), PrintTerm(t2)];
    var last := [PrintTerm(t2)];
    assert parts[1..] == last;
    assert last[1..] == [];
    assert ParseTerms(last[1..]) == Some([]);
    assert Split(PrintTerm(t1) + "," + PrintTerm(t2), ',') == parts;
    if ')' !in t1.operand && ')' !in t2.operand {
      assert ParseTerm(last[0]) == Some(t2);
      assert [t2] + [] == [t2];
      assert ParseTerms(last) == Some([t2]);
      assert ParseTerms(parts) == Some([t1] + [t2]);
      assert [t1] + [t2] == [t1, t2];
    } else if ')' in t2.operand {
      assert ParseTerm(last[0]).None?;
      assert ParseTerms(last).None?;
    }
  }
}
