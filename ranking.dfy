/** The ranking of `exibir_conscritos` and `gerar_relatorio_pelotao`:
    `sorted(rows, key=(peso_mencao.get(x[1], 0), x[5] == "Apto", x[0]), reverse=True)`.
    With `reverse=True` Python orders by the whole key tuple descending and
    keeps rows with equal keys in their input order. */
module Ranking {
  import opened Strings
  import opened Scoring
  import opened Records
  import opened Seqs

  /** The sort key tuple of a row. */
  datatype SortKey = SortKey(peso: int, apto: bool, nome: string)

  function Key(r: Row): (k: SortKey)
    ensures 0 <= k.peso <= 10 && k.peso == Weight(r.mencao)
    ensures k.apto <==> r.status == "Apto"
    ensures k.nome == r.nome
  {
    SortKey(Weight(r.mencao), r.status == "Apto", r.nome)
  }

  /** Python's `<` on the key tuples: lexicographic, with False < True. */
  predicate KeyLess(a: SortKey, b: SortKey)
    ensures KeyLess(a, b) ==> a != b
    ensures a.peso != b.peso ==> (KeyLess(a, b) <==> a.peso < b.peso)
    ensures a.peso == b.peso && a.apto != b.apto ==> (KeyLess(a, b) <==> b.apto)
  {
    || a.peso < b.peso
    || (a.peso == b.peso && !a.apto && b.apto)
    || (a.peso == b.peso && a.apto == b.apto && Less(a.nome, b.nome))
  }

  lemma KeyLessIrreflexive(a: SortKey)
    ensures !KeyLess(a, a)
  {
    LessIrreflexive(a.nome);
  }

  lemma KeyLessTransitive(a: SortKey, b: SortKey, c: SortKey)
    requires KeyLess(a, b) && KeyLess(b, c)
    ensures KeyLess(a, c)
  {
    if a.peso == b.peso == c.peso && a.apto == b.apto == c.apto {
      LessTransitive(a.nome, b.nome, c.nome);
    }
  }

  /** The key order is a strict total order: distinct keys are comparable
      one way and not the other. */
  lemma KeyLessTotal(a: SortKey, b: SortKey)
    requires a != b
    ensures KeyLess(a, b) || KeyLess(b, a)
    ensures !(KeyLess(a, b) && KeyLess(b, a))
  {
    if a.peso == b.peso && a.apto == b.apto {
      LessTotal(a.nome, b.nome);
      if Less(a.nome, b.nome) { LessAsymmetric(a.nome, b.nome); }
    }
  }

  /** "Not below" is transitive. */
  lemma KeyNotLessTransitive(a: SortKey, b: SortKey, c: SortKey)
    requires !KeyLess(a, b) && !KeyLess(b, c)
    ensures !KeyLess(a, c)
  {
    if KeyLess(a, c) {
      if a == b { } else if b == c { } else {
        KeyLessTotal(a, b);
        KeyLessTotal(b, c);
        KeyLessTransitive(c, b, a);
        KeyLessTotal(a, c);
      }
    }
  }

  /** Every row comes no lower than every row after it. */
  predicate Descending(s: seq<Row>)
  {
    forall i, j :: 0 <= i < j < |s| ==> !KeyLess(Key(s[i]), Key(s[j]))
  }

  /** Put `x` in front of the first row whose key is not above its own, so
      that it stays ahead of rows of equal key that came after it in the input. */
  function Insert(x: Row, s: seq<Row>): seq<Row>
  {
    if s == [] then [x]
    else if !KeyLess(Key(x), Key(s[0])) then [x] + s
    else [s[0]] + Insert(x, s[1..])
  }

  /** The stable descending sort, as an insertion sort from the back. */
  function Rank(s: seq<Row>): (r: seq<Row>)
    ensures multiset(r) == multiset(s) && |r| == |s|
    ensures Descending(r)
  {
    if s == [] then []
    else
      var t := Rank(s[1..]);
      InsertPermutation(s[0], t);
      InsertDescending(s[0], t);
      assert s == [s[0]] + s[1..];
      assert |multiset(Insert(s[0], t))| == |Insert(s[0], t)|;
      Insert(s[0], t)
  }

  lemma {:induction false} InsertPermutation(x: Row, s: seq<Row>)
    ensures multiset(Insert(x, s)) == multiset(s) + multiset{x}
  {
    if s != [] && KeyLess(Key(x), Key(s[0])) {
      InsertPermutation(x, s[1..]);
      assert s == [s[0]] + s[1..];
    }
  }

  /** Every input row is in the ranking and every ranked row is an input row. */
  lemma RankMembers(s: seq<Row>)
    ensures forall i :: 0 <= i < |s| ==> s[i] in Rank(s)
    ensures forall i :: 0 <= i < |Rank(s)| ==> Rank(s)[i] in s
  {
    var r := Rank(s);
    forall i | 0 <= i < |s| ensures s[i] in r {
      assert s[i] in multiset(s);
    }
    forall i | 0 <= i < |r| ensures r[i] in s {
      assert r[i] in multiset(r);
    }
  }

  /** A row followed by a descending sequence none of whose rows lies above it. */
  lemma DescendingCons(y: Row, t: seq<Row>)
    requires Descending(t)
    requires forall j :: 0 <= j < |t| ==> !KeyLess(Key(y), Key(t[j]))
    ensures Descending([y] + t)
  {
    var r := [y] + t;
    forall i, j | 0 <= i < j < |r| ensures !KeyLess(Key(r[i]), Key(r[j])) {
      assert r[j] == t[j - 1];
      if i > 0 { assert r[i] == t[i - 1]; }
    }
  }

  /** A row that is not below `x` nor below any row of `s` is not below any
      row of `Insert(x, s)`. */
  lemma {:induction false} InsertKeepsBound(y: Row, x: Row, s: seq<Row>)
    requires !KeyLess(Key(y), Key(x))
    requires forall j :: 0 <= j < |s| ==> !KeyLess(Key(y), Key(s[j]))
    ensures forall j :: 0 <= j < |Insert(x, s)| ==> !KeyLess(Key(y), Key(Insert(x, s)[j]))
  {
    if s != [] && KeyLess(Key(x), Key(s[0])) {
      InsertKeepsBound(y, x, s[1..]);
      var t := Insert(x, s[1..]);
      assert Insert(x, s) == [s[0]] + t;
      forall j | 0 <= j < |Insert(x, s)| ensures !KeyLess(Key(y), Key(Insert(x, s)[j])) {
        if j > 0 { assert Insert(x, s)[j] == t[j - 1]; }
      }
    }
  }

  lemma {:induction false} InsertDescending(x: Row, s: seq<Row>)
    requires Descending(s)
    ensures Descending(Insert(x, s))
  {
    if s == [] {
    } else if !KeyLess(Key(x), Key(s[0])) {
      forall j | 0 <= j < |s| ensures !KeyLess(Key(x), Key(s[j])) {
        if j > 0 { KeyNotLessTransitive(Key(x), Key(s[0]), Key(s[j])); }
      }
      DescendingCons(x, s);
    } else {
      DescendingTail(s);
      InsertDescending(x, s[1..]);
      KeyLessTotal(Key(x), Key(s[0]));
      forall j | 0 <= j < |s[1..]| ensures !KeyLess(Key(s[0]), Key(s[1..][j])) {
        assert s[1..][j] == s[j + 1];
      }
      InsertKeepsBound(s[0], x, s[1..]);
      DescendingCons(s[0], Insert(x, s[1..]));
    }
  }

  /** Read column by column: weight descending, then "Apto" rows before the
      others, then names in DESCENDING order (`reverse` applies to the name too). */
  lemma RankOrder(s: seq<Row>, i: nat, j: nat)
    requires i < j < |Rank(s)|
    ensures var a, b := Rank(s)[i], Rank(s)[j];
      && Weight(a.mencao) >= Weight(b.mencao)
      && (Weight(a.mencao) == Weight(b.mencao) && b.status == "Apto" ==> a.status == "Apto")
      && (Weight(a.mencao) == Weight(b.mencao) && (a.status == "Apto") == (b.status == "Apto")
          ==> !Less(a.nome, b.nome))
  {
  }

  lemma DescendingTail(s: seq<Row>)
    requires Descending(s) && s != []
    ensures Descending(s[1..])
  {
  }

  /** The head of a descending sequence is not below any of its elements. */
  lemma DescendingHead(s: seq<Row>, x: Row)
    requires Descending(s) && x in s
    ensures !KeyLess(Key(s[0]), Key(x))
  {
    var k :| 0 <= k < |s| && s[k] == x;
    if k == 0 { KeyLessIrreflexive(Key(x)); }
  }

  /** Inserting and then filtering is filtering and then inserting. */
  lemma {:induction false} InsertFilter(x: Row, l: seq<Row>, p: Row -> bool)
    requires Descending(l)
    ensures Filter(Insert(x, l), p) == if p(x) then Insert(x, Filter(l, p)) else Filter(l, p)
  {
    var head := if p(x) then [x] else [];
    if l == [] {
      assert Filter([x], p) == head + Filter([], p);
    } else if !KeyLess(Key(x), Key(l[0])) {
      assert ([x] + l)[0] == x && ([x] + l)[1..] == l;
      assert Filter([x] + l, p) == head + Filter(l, p);
      var f := Filter(l, p);
      if p(x) && f != [] {
        DescendingHead(l, f[0]);
        KeyNotLessTransitive(Key(x), Key(l[0]), Key(f[0]));
      }
    } else {
      DescendingTail(l);
      InsertFilter(x, l[1..], p);
      var lh := if p(l[0]) then [l[0]] else [];
      var t := Insert(x, l[1..]);
      var rest := Filter(l[1..], p);
      assert Insert(x, l) == [l[0]] + t;
      assert ([l[0]] + t)[0] == l[0] && ([l[0]] + t)[1..] == t;
      assert Filter(Insert(x, l), p) == lh + Filter(t, p);
      assert Filter(l, p) == lh + rest;
      if p(x) {
        assert Filter(t, p) == Insert(x, rest);
        if p(l[0]) {
          assert ([l[0]] + rest)[0] == l[0] && ([l[0]] + rest)[1..] == rest;
          assert Insert(x, [l[0]] + rest) == [l[0]] + Insert(x, rest);
        } else {
          assert lh + rest == rest && lh + Filter(t, p) == Filter(t, p);
        }
      }
    }
  }

  /** Ranking commutes with any filter: the rows of a subset come out of the
      global ranking in the order the ranking of that subset alone gives. */
  lemma {:induction false} RankFilter(s: seq<Row>, p: Row -> bool)
    ensures Filter(Rank(s), p) == Rank(Filter(s, p))
  {
    if s != [] {
      var tail := Rank(s[1..]);
      var ft := Filter(s[1..], p);
      RankFilter(s[1..], p);
      InsertFilter(s[0], tail, p);
      assert Rank(s) == Insert(s[0], tail);
      assert Filter(tail, p) == Rank(ft);
      var f := Filter(s, p);
      if p(s[0]) {
        assert f == [s[0]] + ft;
        assert f[0] == s[0] && f[1..] == ft;
        assert Rank(f) == Insert(s[0], Rank(ft));
      } else {
        assert f == ft;
      }
    }
  }

  /** Rows whose key is k. */
  function HasKey(k: SortKey): Row -> bool
  {
    r => Key(r) == k
  }

  /** Ranking rows that all share one key leaves them as they are. */
  lemma {:induction false} RankSameKey(s: seq<Row>, k: SortKey)
    requires forall i :: 0 <= i < |s| ==> Key(s[i]) == k
    ensures Rank(s) == s
  {
    if s != [] {
      RankSameKey(s[1..], k);
      KeyLessIrreflexive(k);
      assert s == [s[0]] + s[1..];
    }
  }

  /** Stability: rows of equal key keep their input order. */
  lemma RankStable(s: seq<Row>, k: SortKey)
    ensures Filter(Rank(s), HasKey(k)) == Filter(s, HasKey(k))
  {
    RankFilter(s, HasKey(k));
    RankSameKey(Filter(s, HasKey(k)), k);
  }

  /** Two descending sequences whose rows of each key come in the same order are equal. */
  lemma {:induction false} DescendingGroupsDetermine(t: seq<Row>, u: seq<Row>)
    requires Descending(t) && Descending(u)
    requires forall k :: Filter(t, HasKey(k)) == Filter(u, HasKey(k))
    ensures t == u
    decreases |t| + |u|
  {
    if t == [] && u == [] {
    } else if t == [] {
      FilterHead(u, HasKey(Key(u[0])));
    } else if u == [] {
      FilterHead(t, HasKey(Key(t[0])));
    } else {
      var ka, kb := Key(t[0]), Key(u[0]);
      // t[0] has key ka, so some row of u has key ka, which cannot lie above u[0]; and the other way round
      var ft := Filter(t, HasKey(ka));
      var xa := ft[0];
      DescendingHead(u, xa);
      var fu := Filter(u, HasKey(kb));
      var xb := fu[0];
      DescendingHead(t, xb);
      if ka != kb { KeyLessTotal(ka, kb); }
      assert ka == kb;
      assert Filter(t, HasKey(ka)) == [t[0]] + Filter(t[1..], HasKey(ka));
      assert Filter(u, HasKey(ka)) == [u[0]] + Filter(u[1..], HasKey(ka));
      forall k ensures Filter(t[1..], HasKey(k)) == Filter(u[1..], HasKey(k)) {
        if k == ka {
          assert ([t[0]] + Filter(t[1..], HasKey(ka)))[1..] == Filter(t[1..], HasKey(ka));
          assert ([u[0]] + Filter(u[1..], HasKey(ka)))[1..] == Filter(u[1..], HasKey(ka));
        } else {
          assert Filter(t, HasKey(k)) == Filter(t[1..], HasKey(k));
          assert Filter(u, HasKey(k)) == Filter(u[1..], HasKey(k));
        }
      }
      DescendingTail(t);
      DescendingTail(u);
      DescendingGroupsDetermine(t[1..], u[1..]);
      assert t == [t[0]] + t[1..] && u == [u[0]] + u[1..];
    }
  }

  /** `Rank` is exactly Python's stable descending sort: any descending
      arrangement that keeps rows of equal key in input order is `Rank(s)`. */
  lemma RankUnique(s: seq<Row>, t: seq<Row>)
    requires Descending(t)
    requires forall k :: Filter(t, HasKey(k)) == Filter(s, HasKey(k))
    ensures t == Rank(s)
  {
    forall k ensures Filter(t, HasKey(k)) == Filter(Rank(s), HasKey(k)) {
      RankStable(s, k);
    }
    DescendingGroupsDetermine(t, Rank(s));
  }

  /** Two "Excelente", "Apto" candidates come out in reverse alphabetical order. */
  lemma RankNamesDescendingExample()
    ensures var ana, bruno := Row("Ana", "Excelente", "-", "-", 10, "Apto"),
                              Row("Bruno", "Excelente", "-", "-", 10, "Apto");
      Rank([ana, bruno]) == [bruno, ana]
  {
    var ana, bruno := Row("Ana", "Excelente", "-", "-", 10, "Apto"),
                      Row("Bruno", "Excelente", "-", "-", 10, "Apto");
    assert Less(ana.nome, bruno.nome);
    assert KeyLess(Key(ana), Key(bruno));
    assert [ana, bruno][1..] == [bruno];
    assert Rank([bruno]) == [bruno] by { assert [bruno][1..] == []; }
    assert Insert(ana, [bruno]) == [bruno] + Insert(ana, []);
  }
}
