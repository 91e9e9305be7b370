/** The interview-mention weight table `peso_mencao` and the defaulted
    lookup `peso_mencao.get(m, 0)` that the ranking key uses. */
module Scoring {

  /** `peso_mencao`. */
  const PesoMencao: map<string, int> :=
    map["Excelente" := 10, "Muito Bom" := 8, "Bom" := 6, "Regular" := 4, "Insuficiente" := 0]

  /** The options of the mention select box, in the order it lists them. */
  const Mencoes: seq<string> := ["Excelente", "Muito Bom", "Bom", "Regular", "Insuficiente"]

  /** `peso_mencao.get(mencao, 0)`. */
  function Weight(mencao: string): (w: int)
    ensures 0 <= w <= 10
    ensures w == 10 <==> mencao == "Excelente"
    ensures w == 0 <==> mencao !in PesoMencao || mencao == "Insuficiente"
  {
    if mencao in PesoMencao then PesoMencao[mencao] else 0
  }

  /** The table gives exactly these weights, and nothing else is a key of it. */
  lemma WeightTable(mencao: string)
    ensures Weight("Excelente") == 10 && Weight("Muito Bom") == 8 && Weight("Bom") == 6
    ensures Weight("Regular") == 4 && Weight("Insuficiente") == 0
    ensures mencao in PesoMencao <==> mencao in Mencoes
    ensures mencao !in PesoMencao ==> Weight(mencao) == 0
  {
  }

  /** Down the select box the weights strictly decrease, so the weight
      orders the five mentions as the select box lists them. */
  lemma {:induction false} WeightsFollowSelectBoxOrder(i: nat, j: nat)
    requires i < j < |Mencoes|
    ensures Weight(Mencoes[i]) > Weight(Mencoes[j])
  {
  }
}
