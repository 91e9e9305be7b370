/** The six-column candidate row that registration writes and the ranking reads:
    `[nome, menção, habilidades_str, habilidades_descricao, peso, status]`. */
module Records {
  import opened Strings
  import opened Scoring
  import opened Eligibility

  datatype Row = Row(nome: string, mencao: string, habilidades: string,
                     descricao: string, peso: int, status: string)

  /** What every row built by registration satisfies: a non-empty name, a
      mention from the table, the table weight of that mention in the weight
      column, and a status the gate chain can produce. */
  predicate WellFormed(r: Row)
  {
    && |r.nome| > 0
    && r.mencao in PesoMencao
    && r.peso == PesoMencao[r.mencao]
    && (r.status == Apto || IsPrefix(InaptoPrefix, r.status))
  }

  /** `[c[0] for c in rows]`: the name column. */
  function Names(rows: seq<Row>): (r: seq<string>)
    ensures |r| == |rows|
    ensures forall i :: 0 <= i < |rows| ==> r[i] == rows[i].nome
  {
    if rows == [] then [] else [rows[0].nome] + Names(rows[1..])
  }

  /** `[c[1] for c in rows]`: the mention column. */
  function Mentions(rows: seq<Row>): (r: seq<string>)
    ensures |r| == |rows|
    ensures forall i :: 0 <= i < |rows| ==> r[i] == rows[i].mencao
  {
    if rows == [] then [] else [rows[0].mencao] + Mentions(rows[1..])
  }

  /** No two rows carry the same name. */
  predicate NamesDistinct(rows: seq<Row>)
  {
    forall i, j :: 0 <= i < j < |rows| ==> rows[i].nome != rows[j].nome
  }
}
