/**
 * `build_cql_query`: the keyword arguments (field, search term) become the
 * CQL (Contextual Query Language) conjunction
 *   dc.<field> all '<value>' and dc.<field> all '<value>' ...
 * with one clause per argument whose value is truthy, in argument order.
 * Values are inserted verbatim: nothing is escaped.
 *
 * The module also defines a reader for such queries (ParseQuery), which is
 * the partner of BuildCqlQuery in the round-trip lemma ParseBuildRoundTrip.
 */
module CqlQuery {
  import opened Wrappers

  /** One keyword argument: the Dublin Core field name and its search term. */
  type Pair = (string, string)

  /** The string `" and ".join` puts between two clauses. */
  const Separator: string := " and "

  /** Python truthiness of a string: only the empty string is falsy. */
  predicate Truthy(value: string) {
    value != ""
  }

  /** The clause the f-string produces for one pair. */
  function Clause(field: string, value: string): string {
    "dc." + field + " all '" + value + "'"
  }

  /** The pairs that pass the generator's `if value`, in input order. */
  function Kept(pairs: seq<Pair>): (kept: seq<Pair>)
    ensures |kept| <= |pairs|
    ensures forall i :: 0 <= i < |kept| ==> Truthy(kept[i].1)
    ensures forall p :: p in kept <==> p in pairs && Truthy(p.1)
  {
    if pairs == [] then []
    else if Truthy(pairs[0].1) then [pairs[0]] + Kept(pairs[1..])
    else Kept(pairs[1..])
  }

  /** One clause per pair, in order. */
  function Clauses(pairs: seq<Pair>): (clauses: seq<string>)
    ensures |clauses| == |pairs|
  {
    if pairs == [] then [] else [Clause(pairs[0].0, pairs[0].1)] + Clauses(pairs[1..])
  }

  /** Python's `sep.join(parts)`. */
  function Join(sep: string, parts: seq<string>): string {
    if |parts| == 0 then ""
    else if |parts| == 1 then parts[0]
    else parts[0] + sep + Join(sep, parts[1..])
  }

  /** `build_cql_query(**kwargs)`, the keyword arguments given in order. */
  function BuildCqlQuery(pairs: seq<Pair>): string {
    Join(Separator, Clauses(Kept(pairs)))
  }

  // ---------------------------------------------------------------------
  // Reading a query back
  // ---------------------------------------------------------------------

  /** Index of the first occurrence of `c` in `s`, if any. */
  function Find(s: string, c: char): (r: Option<nat>)
    ensures r.Some? ==> r.value < |s| && s[r.value] == c && c !in s[..r.value]
    ensures r.None? ==> c !in s
  {
    if s == [] then None
    else if s[0] == c then Some(0)
    else match Find(s[1..], c)
      case None => None
      case Some(i) =>
        assert s[..i + 1] == [s[0]] + s[1..][..i];
        Some(i + 1)
  }

  /** The rest of `s` after `prefix`, if `s` starts with `prefix`. */
  function Expect(s: string, prefix: string): (r: Option<string>)
    ensures r.Some? ==> |r.value| == |s| - |prefix|
  {
    if |prefix| <= |s| && s[..|prefix|] == prefix then Some(s[|prefix|..]) else None
  }

  /** The text before the first `c` in `s` and the text after it, if `s` holds a `c`. */
  function SplitAt(s: string, c: char): (r: Option<(string, string)>)
    ensures r.Some? ==> |r.value.0| + 1 + |r.value.1| == |s|
  {
    match Find(s, c)
    case None => None
    case Some(i) => Some((s[..i], s[i + 1..]))
  }

  /** Reads one clause `dc.<field> all '<value>'` off the front of `q`,
    * the field ending at the first space and the value at the first quote. */
  function ParseClause(q: string): (r: Option<(Pair, string)>)
    ensures r.Some? ==> |r.value.1| < |q|
  {
    match Expect(q, "dc.")
    case None => None
    case Some(body) =>
      match SplitAt(body, ' ')
      case None => None
      case Some((field, after)) =>
        match Expect(after, "all '")
        case None => None
        case Some(tail) =>
          match SplitAt(tail, '\'')
          case None => None
          case Some((value, rest)) => Some(((field, value), rest))
  }

  /** Reads one or more clauses separated by `Separator`. */
  function ParseClauses(q: string): Option<seq<Pair>>
    decreases |q|
  {
    match ParseClause(q)
    case None => None
    case Some((p, rest)) =>
      if rest == "" then Some([p])
      else if |rest| >= |Separator| && rest[..|Separator|] == Separator then
        match ParseClauses(rest[|Separator|..])
        case None => None
        case Some(ps) => Some([p] + ps)
      else None
  }

  /** Reads a whole query; the empty query has no clauses. */
  function ParseQuery(q: string): Option<seq<Pair>> {
    if q == "" then Some([]) else ParseClauses(q)
  }

  /** Pairs whose clause can be read back unambiguously: no space in the
    * field (keyword-argument names are identifiers) and no quote in the value. */
  predicate Unambiguous(pairs: seq<Pair>) {
    forall p :: p in pairs ==> ' ' !in p.0 && '\'' !in p.1
  }

  // ---------------------------------------------------------------------
  // Lemmas
  // ---------------------------------------------------------------------

  /** Filtering distributes over concatenation: the kept pairs stay in input order. */
  lemma {:induction false} KeptAppend(a: seq<Pair>, b: seq<Pair>)
    ensures Kept(a + b) == Kept(a) + Kept(b)
  {
    if a == [] {
      assert a + b == b;
    } else {
      assert (a + b)[1..] == a[1..] + b;
      KeptAppend(a[1..], b);
    }
  }

  lemma {:induction false} ClausesAppend(a: seq<Pair>, b: seq<Pair>)
    ensures Clauses(a + b) == Clauses(a) + Clauses(b)
  {
    if a == [] {
      assert a + b == b;
    } else {
      assert (a + b)[1..] == a[1..] + b;
      ClausesAppend(a[1..], b);
    }
  }

  lemma {:induction false} ClausesAt(pairs: seq<Pair>, i: nat)
    requires i < |pairs|
    ensures Clauses(pairs)[i] == Clause(pairs[i].0, pairs[i].1)
  {
    if i > 0 {
      ClausesAt(pairs[1..], i - 1);
    }
  }

  lemma {:induction false} JoinAppend(sep: string, xs: seq<string>, ys: seq<string>)
    requires xs != [] && ys != []
    ensures Join(sep, xs + ys) == Join(sep, xs) + sep + Join(sep, ys)
  {
    if |xs| == 1 {
      assert (xs + ys)[1..] == ys;
    } else {
      assert (xs + ys)[1..] == xs[1..] + ys;
      JoinAppend(sep, xs[1..], ys);
    }
  }

  /** A non-empty join starts with its first part and ends with its last. */
  lemma {:induction false} JoinEnds(sep: string, parts: seq<string>)
    requires parts != []
    ensures |Join(sep, parts)| >= |parts[0]| && |Join(sep, parts)| >= |parts[|parts| - 1]|
    ensures Join(sep, parts)[..|parts[0]|] == parts[0]
    ensures Join(sep, parts)[|Join(sep, parts)| - |parts[|parts| - 1]|..] == parts[|parts| - 1]
  {
    if |parts| > 1 {
      JoinEnds(sep, parts[1..]);
      var rest := Join(sep, parts[1..]);
      assert Join(sep, parts) == parts[0] + (sep + rest);
    }
  }

  /** The query is empty exactly when no argument has a truthy value. */
  lemma EmptyQueryIffNoValue(pairs: seq<Pair>)
    ensures BuildCqlQuery(pairs) == "" <==> forall i :: 0 <= i < |pairs| ==> !Truthy(pairs[i].1)
  {
    var kept := Kept(pairs);
    if kept == [] {
      forall i | 0 <= i < |pairs| ensures !Truthy(pairs[i].1) {
        assert pairs[i] in pairs;
      }
    } else {
      assert kept[0] in pairs;
      ClausesAt(kept, 0);
      JoinEnds(Separator, Clauses(kept));
    }
  }

  /** Building from a concatenation of argument lists joins the two queries
    * with one separator, or keeps the only non-empty one: clauses stay in
    * input order and no separator leads, trails or doubles. */
  lemma BuildAppend(a: seq<Pair>, b: seq<Pair>)
    ensures BuildCqlQuery(a + b) ==
      if BuildCqlQuery(a) == "" then BuildCqlQuery(b)
      else if BuildCqlQuery(b) == "" then BuildCqlQuery(a)
      else BuildCqlQuery(a) + Separator + BuildCqlQuery(b)
  {
    KeptAppend(a, b);
    ClausesAppend(Kept(a), Kept(b));
    EmptyQueryIffNoValue(a);
    EmptyQueryIffNoValue(b);
    if Kept(a) == [] {
      assert Kept(a + b) == Kept(b);
      if Kept(b) != [] {
        assert Kept(b)[0] in b;
      }
    } else if Kept(b) == [] {
      assert Kept(a)[0] in a;
      assert Kept(a + b) == Kept(a);
    } else {
      assert Kept(a)[0] in a;
      assert Kept(b)[0] in b;
      JoinAppend(Separator, Clauses(Kept(a)), Clauses(Kept(b)));
    }
  }

  /** A non-empty query begins with a clause and ends with a closing quote:
    * there is no leading or trailing separator. */
  lemma NoOuterSeparator(pairs: seq<Pair>)
    requires BuildCqlQuery(pairs) != ""
    ensures |BuildCqlQuery(pairs)| >= 3 && BuildCqlQuery(pairs)[..3] == "dc."
    ensures BuildCqlQuery(pairs)[|BuildCqlQuery(pairs)| - 1] == '\''
  {
    var kept := Kept(pairs);
    var clauses := Clauses(kept);
    assert kept != [];
    ClausesAt(kept, 0);
    ClausesAt(kept, |kept| - 1);
    JoinEnds(Separator, clauses);
    var q := BuildCqlQuery(pairs);
    var first := clauses[0];
    var last := clauses[|clauses| - 1];
    assert q[..|first|] == first;
    assert q[..3] == first[..3];
    assert q[|q| - |last|..] == last;
    assert q[|q| - 1] == last[|last| - 1];
  }

  lemma {:induction false} FindAt(a: string, b: string, c: char)
    requires c !in a && b != [] && b[0] == c
    ensures Find(a + b, c) == Some(|a|)
  {
    if a != [] {
      assert (a + b)[1..] == a[1..] + b;
      FindAt(a[1..], b, c);
    }
  }

  lemma ExpectOf(prefix: string, s: string)
    ensures Expect(prefix + s, prefix) == Some(s)
  {
    assert (prefix + s)[..|prefix|] == prefix;
    assert (prefix + s)[|prefix|..] == s;
  }

  lemma SplitAtOf(a: string, c: char, b: string)
    requires c !in a
    ensures SplitAt(a + ([c] + b), c) == Some((a, b))
  {
    FindAt(a, [c] + b, c);
    assert (a + ([c] + b))[..|a|] == a;
    assert (a + ([c] + b))[|a| + 1..] == b;
  }

  /** One clause is read back off the front of any text. */
  lemma ParseClauseOf(field: string, value: string, rest: string)
    requires ' ' !in field && '\'' !in value
    ensures ParseClause(Clause(field, value) + rest) == Some(((field, value), rest))
  {
    var tail := value + (['\''] + rest);
    var after := "all '" + tail;
    var body := field + ([' '] + after);
    assert Clause(field, value) + rest == "dc." + body;
    ExpectOf("dc.", body);
    SplitAtOf(field, ' ', after);
    ExpectOf("all '", tail);
    SplitAtOf(value, '\'', rest);
  }

  /** A last clause is read back as a one-clause query. */
  lemma ParseClausesOne(field: string, value: string)
    requires ' ' !in field && '\'' !in value
    ensures ParseClauses(Clause(field, value)) == Some([(field, value)])
  {
    assert Clause(field, value) + "" == Clause(field, value);
    ParseClauseOf(field, value, "");
  }

  /** A clause followed by a separator is read back, then reading goes on after the separator. */
  lemma ParseClausesCons(field: string, value: string, tail: string)
    requires ' ' !in field && '\'' !in value
    ensures ParseClauses(Clause(field, value) + Separator + tail) ==
      match ParseClauses(tail)
      case None => None
      case Some(ps) => Some([(field, value)] + ps)
  {
    var rest := Separator + tail;
    assert Clause(field, value) + Separator + tail == Clause(field, value) + rest;
    ParseClauseOf(field, value, rest);
    assert rest[..|Separator|] == Separator && rest[|Separator|..] == tail;
  }

  lemma JoinClausesCons(pairs: seq<Pair>)
    requires |pairs| >= 2
    ensures Join(Separator, Clauses(pairs))
         == Clause(pairs[0].0, pairs[0].1) + Separator + Join(Separator, Clauses(pairs[1..]))
  {
    var clauses := Clauses(pairs);
    assert clauses[0] == Clause(pairs[0].0, pairs[0].1);
    assert clauses[1..] == Clauses(pairs[1..]);
  }

  lemma UnambiguousTail(pairs: seq<Pair>)
    requires pairs != [] && Unambiguous(pairs)
    ensures ' ' !in pairs[0].0 && '\'' !in pairs[0].1
    ensures Unambiguous(pairs[1..])
  {
    assert pairs[0] in pairs;
    forall x | x in pairs[1..] ensures ' ' !in x.0 && '\'' !in x.1 {
      assert x in pairs;
    }
  }

  lemma {:induction false} ParseClausesJoin(pairs: seq<Pair>)
    requires pairs != [] && Unambiguous(pairs)
    ensures ParseClauses(Join(Separator, Clauses(pairs))) == Some(pairs)
  {
    var p := pairs[0];
    UnambiguousTail(pairs);
    if |pairs| == 1 {
      assert Join(Separator, Clauses(pairs)) == Clause(p.0, p.1);
      ParseClausesOne(p.0, p.1);
      assert pairs == [p];
    } else {
      var tail := Join(Separator, Clauses(pairs[1..]));
      JoinClausesCons(pairs);
      ParseClausesJoin(pairs[1..]);
      ParseClausesCons(p.0, p.1, tail);
      assert pairs == [p] + pairs[1..];
    }
  }

  /** Reading the built query gives back exactly the kept pairs, in order,
    * provided no field holds a space and no value holds a quote. */
  lemma ParseBuildRoundTrip(pairs: seq<Pair>)
    requires Unambiguous(pairs)
    ensures ParseQuery(BuildCqlQuery(pairs)) == Some(Kept(pairs))
  {
    var kept := Kept(pairs);
    if kept != [] {
      assert Unambiguous(kept) by {
        forall x | x in kept ensures ' ' !in x.0 && '\'' !in x.1 {
          assert x in pairs;
        }
      }
      ParseClausesJoin(kept);
      EmptyQueryIffNoValue(pairs);
      assert kept[0] in pairs;
    }
  }

  /** Values are not escaped: a value that itself holds `' and dc.<field> all '`
    * yields the same query as two separate arguments, so the query no longer
    * determines its arguments. */
  lemma QuoteInValueIsNotEscaped(f: string, x: string, g: string, y: string)
    requires x != "" && y != ""
    ensures BuildCqlQuery([(f, x + "' and dc." + g + " all '" + y)])
         == BuildCqlQuery([(f, x), (g, y)])
  {
    var one := [(f, x + "' and dc." + g + " all '" + y)];
    var two := [(f, x), (g, y)];
    assert Kept(one) == one;
    assert Kept(two) == [(f, x)] + Kept([(g, y)]);
    assert Kept(two) == two;
    assert Clauses(two) == [Clause(f, x), Clause(g, y)];
    assert [Clause(f, x), Clause(g, y)][1..] == [Clause(g, y)];
    assert Join(Separator, [Clause(g, y)]) == Clause(g, y);
    assert Join(Separator, [Clause(f, x), Clause(g, y)]) == Clause(f, x) + Separator + Clause(g, y);
    calc {
      BuildCqlQuery(two);
      Clause(f, x) + Separator + Clause(g, y);
      "dc." + f + " all '" + (x + "' and dc." + g + " all '" + y) + "'";
      BuildCqlQuery(one);
    }
  }
}
