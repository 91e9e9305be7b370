/** The platoon views of `exibir_conscritos`, the platoon report of
    `gerar_relatorio_pelotao` (its six-column projection) and the collapsed
    "Situação" column shown in the tables. */
module Platoons {
  import opened Strings
  import opened Seqs
  import opened Eligibility
  import opened Records
  import opened Ranking

  const Pelotao1: string := "ABCDE"
  const Pelotao2: string := "FGHIJ"

  /** Every row has a name with a first character to look at. */
  predicate NonEmptyNames(rows: seq<Row>)
  {
    forall i :: 0 <= i < |rows| ==> |rows[i].nome| > 0
  }

  /** `c[0][0].upper() in letters`. */
  function InPlatoon(letters: string): Row -> bool
  {
    (r: Row) => |r.nome| > 0 && Upper(r.nome[0]) in letters
  }

  /** `[c for c in Rank(rows) if c[0][0].upper() in letters]`. */
  function Platoon(rows: seq<Row>, letters: string): (r: seq<Row>)
    requires NonEmptyNames(rows)
    ensures IsSubsequence(r, Rank(rows))
    ensures r == Rank(Filter(rows, InPlatoon(letters)))
    ensures Descending(r)
    ensures forall i :: 0 <= i < |rows| ==> (rows[i] in r <==> InPlatoon(letters)(rows[i]))
    ensures forall i :: 0 <= i < |r| ==> r[i] in rows && InPlatoon(letters)(r[i])
  {
    RankMembers(rows);
    FilterIsSubsequence(Rank(rows), InPlatoon(letters));
    RankFilter(rows, InPlatoon(letters));
    Filter(Rank(rows), InPlatoon(letters))
  }

  /** The rows of the report for `pelotao`: platoon 1 only when `pelotao == 1`,
      platoon 2 for every other value. */
  function Report(rows: seq<Row>, pelotao: int): (r: seq<Row>)
    requires NonEmptyNames(rows)
    ensures var letters := if pelotao == 1 then Pelotao1 else Pelotao2;
      && r == Rank(Filter(rows, InPlatoon(letters)))
      && IsSubsequence(r, Rank(rows))
      && Descending(r)
      && (forall i :: 0 <= i < |rows| ==> (rows[i] in r <==> InPlatoon(letters)(rows[i])))
      && (forall i :: 0 <= i < |r| ==> r[i] in rows && InPlatoon(letters)(r[i]))
  {
    if pelotao == 1 then Platoon(rows, Pelotao1) else Platoon(rows, Pelotao2)
  }

  /** Which initials each platoon takes, upper or lower case; platoon 2 also
      takes U+0131, whose upper case is 'I'. */
  lemma PlatoonInitials(r: Row)
    requires |r.nome| > 0
    ensures InPlatoon(Pelotao1)(r) <==> r.nome[0] in "ABCDEabcde"
    ensures InPlatoon(Pelotao2)(r) <==> r.nome[0] in "FGHIJfghij\U{131}"
  {
  }

  /** A row is in a platoon view exactly when it is one of the rows and its
      initial belongs to the platoon, as often as it occurs among the rows. */
  lemma PlatoonMembership(rows: seq<Row>, letters: string, r: Row)
    requires NonEmptyNames(rows)
    ensures multiset(Platoon(rows, letters))[r] == if InPlatoon(letters)(r) then multiset(rows)[r] else 0
    ensures r in Platoon(rows, letters) <==> r in rows && InPlatoon(letters)(r)
  {
    FilterMultiset(Rank(rows), InPlatoon(letters), r);
    assert r in rows <==> r in multiset(rows);
    assert r in Rank(rows) <==> r in multiset(Rank(rows));
  }

  /** No row is in both platoons, and a row whose initial is outside A to J
      (in either case, U+0131 aside) is in neither. */
  lemma PlatoonsDisjoint(rows: seq<Row>, r: Row)
    requires NonEmptyNames(rows)
    ensures !(r in Platoon(rows, Pelotao1) && r in Platoon(rows, Pelotao2))
    ensures |r.nome| > 0 && r.nome[0] !in "ABCDEFGHIJabcdefghij\U{131}"
            ==> r !in Platoon(rows, Pelotao1) && r !in Platoon(rows, Pelotao2)
  {
    PlatoonMembership(rows, Pelotao1, r);
    PlatoonMembership(rows, Pelotao2, r);
    if |r.nome| > 0 { InitialSelectsOnePlatoon(r.nome[0]); }
  }

  /** An initial selects at most one platoon, and one outside A to J selects none. */
  lemma InitialSelectsOnePlatoon(c: char)
    ensures !(Upper(c) in Pelotao1 && Upper(c) in Pelotao2)
    ensures c !in "ABCDEFGHIJabcdefghij\U{131}" ==> Upper(c) !in Pelotao1 && Upper(c) !in Pelotao2
  {
  }

  /* ---------------- the "Situação" column of the displayed tables ---------------- */

  /** `"Inapto" if "Inapto" in x else "Apto"`. */
  function Situacao(x: string): (d: string)
    ensures d == "Inapto" <==> Contains(x, "Inapto")
    ensures d == "Inapto" || d == "Apto"
  {
    if Contains(x, "Inapto") then "Inapto" else "Apto"
  }

  /** Collapsing the column twice is collapsing it once. */
  lemma SituacaoIdempotent(x: string)
    ensures Situacao(Situacao(x)) == Situacao(x)
  {
    assert IsPrefix("Inapto", "Inapto");
    assert !Contains("Apto", "Inapto");
  }

  /** On a status produced by the gate chain the column reads "Apto" exactly
      when the status is "Apto". */
  lemma SituacaoOfVerdict(gates: seq<Gate>)
    ensures Situacao(Verdict(gates)) == "Apto" <==> Verdict(gates) == Apto
  {
    var v := Verdict(gates);
    if v == Apto {
      assert !Contains(v, "Inapto");
    } else {
      assert v[..|InaptoPrefix|] == InaptoPrefix;
      assert v[..|"Inapto"|] == "Inapto";
      assert IsPrefix("Inapto", v);
    }
  }

  /** The displayed copy of a table: the "Situação" column collapsed, every
      other column as it was. */
  function DisplayRows(rows: seq<Row>): (t: seq<Row>)
    ensures |t| == |rows|
    ensures forall i :: 0 <= i < |rows| ==> t[i] == rows[i].(status := Situacao(rows[i].status))
  {
    if rows == [] then [] else [rows[0].(status := Situacao(rows[0].status))] + DisplayRows(rows[1..])
  }

  /** The two tables `exibir_conscritos` shows: platoon 1, then platoon 2,
      each with all six columns and only "Situação" collapsed. */
  function Exibir(rows: seq<Row>): (tables: (seq<Row>, seq<Row>))
    requires NonEmptyNames(rows)
    ensures var (t1, p1) := (tables.0, Platoon(rows, Pelotao1));
      && |t1| == |p1|
      && forall i :: 0 <= i < |t1| ==>
           && t1[i].nome == p1[i].nome && t1[i].mencao == p1[i].mencao
           && t1[i].habilidades == p1[i].habilidades && t1[i].descricao == p1[i].descricao
           && t1[i].peso == p1[i].peso
           && (t1[i].status == "Inapto" <==> Contains(p1[i].status, "Inapto"))
           && (t1[i].status == "Apto" <==> !Contains(p1[i].status, "Inapto"))
    ensures var (t2, p2) := (tables.1, Platoon(rows, Pelotao2));
      && |t2| == |p2|
      && forall i :: 0 <= i < |t2| ==>
           && t2[i].nome == p2[i].nome && t2[i].mencao == p2[i].mencao
           && t2[i].habilidades == p2[i].habilidades && t2[i].descricao == p2[i].descricao
           && t2[i].peso == p2[i].peso
           && (t2[i].status == "Inapto" <==> Contains(p2[i].status, "Inapto"))
           && (t2[i].status == "Apto" <==> !Contains(p2[i].status, "Inapto"))
  {
    (DisplayRows(Platoon(rows, Pelotao1)), DisplayRows(Platoon(rows, Pelotao2)))
  }

  /** Collapsing the displayed tables again changes nothing. */
  lemma ExibirIdempotent(rows: seq<Row>)
    requires NonEmptyNames(rows)
    ensures var (t1, t2) := Exibir(rows);
      DisplayRows(t1) == t1 && DisplayRows(t2) == t2
  {
    var (t1, t2) := Exibir(rows);
    forall i | 0 <= i < |t1| ensures Situacao(Situacao(Platoon(rows, Pelotao1)[i].status)) == t1[i].status {
      SituacaoIdempotent(Platoon(rows, Pelotao1)[i].status);
    }
    forall i | 0 <= i < |t2| ensures Situacao(Situacao(Platoon(rows, Pelotao2)[i].status)) == t2[i].status {
      SituacaoIdempotent(Platoon(rows, Pelotao2)[i].status);
    }
  }
}
