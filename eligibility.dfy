/** The fitness verdict computed in `coletar_dados`: a chain of gates tried
    in a fixed order, where the first gate that fails names the reason. */
module Eligibility {
  import opened Strings

  /** The answer of a Sim/Não radio button. */
  datatype Answer = Sim | Nao

  /** One gate: whether the candidate fails it, and the reason it then reports. */
  datatype Gate = Gate(fails: bool, reason: string)

  const Apto: string := "Apto"
  const InaptoPrefix: string := "Inapto - "

  /** The gates in the order the chain tries them: obesity, health,
      physical test, contraindication, instruction team.  The interview
      mention is not one of them. */
  function Gates(obeso: Answer, saude: Answer, testeFisico: Answer,
                 contraIndicado: Answer, aptoInstrucao: Answer): (g: seq<Gate>)
    ensures |g| == 5 && DistinctReasons(g)
    ensures !g[0].fails <==> obeso == Nao
    ensures !g[1].fails <==> saude == Sim
    ensures !g[2].fails <==> testeFisico == Sim
    ensures !g[3].fails <==> contraIndicado == Nao
    ensures !g[4].fails <==> aptoInstrucao == Sim
  {
    [ Gate(obeso == Sim, "Obesidade"),
      Gate(saude == Nao, "Saúde"),
      Gate(testeFisico == Nao, "Teste Físico"),
      Gate(contraIndicado == Sim, "Contraindicado"),
      Gate(aptoInstrucao == Nao, "Não Apto pela Instrução") ]
  }

  /** The reference verdict: the reason of the first failing gate, or "Apto". */
  function Verdict(gates: seq<Gate>): (r: string)
    ensures r == Apto || IsPrefix(InaptoPrefix, r)
  {
    if gates == [] then Apto
    else if gates[0].fails then InaptoPrefix + gates[0].reason
    else Verdict(gates[1..])
  }

  predicate DistinctReasons(gates: seq<Gate>)
  {
    forall i, j :: 0 <= i < j < |gates| ==> gates[i].reason != gates[j].reason
  }

  /** The status as the source computes it: start from "Apto" and let the
      first matching branch of the if/elif chain overwrite it. */
  method Classify(obeso: Answer, saude: Answer, testeFisico: Answer,
                  contraIndicado: Answer, aptoInstrucao: Answer) returns (status: string)
    ensures status == Verdict(Gates(obeso, saude, testeFisico, contraIndicado, aptoInstrucao))
  {
    ghost var g := Gates(obeso, saude, testeFisico, contraIndicado, aptoInstrucao);
    status := "Apto";
    if obeso == Sim {
      status := "Inapto - Obesidade";
      ObesidadeText();
      VerdictAtFirstFailure(g, 0);
    } else if saude == Nao {
      status := "Inapto - Saúde";
      SaudeText();
      VerdictAtFirstFailure(g, 1);
    } else if testeFisico == Nao {
      status := "Inapto - Teste Físico";
      TesteFisicoText();
      VerdictAtFirstFailure(g, 2);
    } else if contraIndicado == Sim {
      status := "Inapto - Contraindicado";
      ContraindicadoText();
      VerdictAtFirstFailure(g, 3);
    } else if aptoInstrucao == Nao {
      status := "Inapto - Não Apto pela Instrução";
      InstrucaoText();
      VerdictAtFirstFailure(g, 4);
    } else {
      VerdictSkipsPassedGates(g, 5);
    }
  }

  /** Each status string of the chain is "Inapto - " followed by its gate's
      reason.  One lemma per literal keeps each proof obligation small. */
  lemma ObesidadeText()
    ensures "Inapto - Obesidade" == InaptoPrefix + "Obesidade"
  {
  }

  lemma SaudeText()
    ensures "Inapto - Saúde" == InaptoPrefix + "Saúde"
  {
  }

  lemma TesteFisicoText()
    ensures "Inapto - Teste Físico" == InaptoPrefix + "Teste Físico"
  {
  }

  lemma ContraindicadoText()
    ensures "Inapto - Contraindicado" == InaptoPrefix + "Contraindicado"
  {
  }

  lemma InstrucaoText()
    ensures "Inapto - Não Apto pela Instrução" == InaptoPrefix + "Não Apto pela Instrução"
  {
  }

  /** The first failing gate gives the verdict. */
  lemma VerdictAtFirstFailure(gates: seq<Gate>, k: nat)
    requires k < |gates| && gates[k].fails
    requires forall j :: 0 <= j < k ==> !gates[j].fails
    ensures Verdict(gates) == InaptoPrefix + gates[k].reason
  {
    VerdictSkipsPassedGates(gates, k);
  }

  /** Gates that pass do not affect the verdict. */
  lemma {:induction false} VerdictSkipsPassedGates(gates: seq<Gate>, i: nat)
    requires i <= |gates|
    requires forall j :: 0 <= j < i ==> !gates[j].fails
    ensures Verdict(gates) == Verdict(gates[i..])
  {
    if i > 0 {
      assert gates[1..][i - 1..] == gates[i..];
      VerdictSkipsPassedGates(gates[1..], i - 1);
    }
  }

  /** A verdict is "Apto" exactly when no gate fails. */
  lemma {:induction false} VerdictAptoIff(gates: seq<Gate>)
    ensures Verdict(gates) == Apto <==> forall i :: 0 <= i < |gates| ==> !gates[i].fails
  {
    if gates != [] {
      VerdictAptoIff(gates[1..]);
      if gates[0].fails {
        assert Verdict(gates)[0] == 'I';
      } else {
        forall i | 0 < i < |gates| ensures gates[i] == gates[1..][i - 1] { }
      }
    }
  }

  /** With distinct reasons, a verdict names gate k exactly when gate k
      fails and every earlier gate passes. */
  lemma {:induction false} VerdictNamesFirstFailure(gates: seq<Gate>, k: nat)
    requires k < |gates| && DistinctReasons(gates)
    ensures Verdict(gates) == InaptoPrefix + gates[k].reason
        <==> gates[k].fails && forall j :: 0 <= j < k ==> !gates[j].fails
  {
    var tail := gates[1..];
    if gates[0].fails {
      PrefixInjective(gates[0].reason, gates[k].reason);
    } else if k == 0 {
      VerdictReason(tail);
      forall i | 0 <= i < |tail|
        ensures Verdict(tail) == InaptoPrefix + tail[i].reason ==> Verdict(tail) != InaptoPrefix + gates[0].reason
      {
        assert tail[i] == gates[i + 1];
        PrefixInjective(tail[i].reason, gates[0].reason);
      }
    } else {
      assert DistinctReasons(tail) by {
        forall i, j | 0 <= i < j < |tail| ensures tail[i].reason != tail[j].reason {
          assert tail[i] == gates[i + 1] && tail[j] == gates[j + 1];
        }
      }
      VerdictNamesFirstFailure(tail, k - 1);
      assert tail[k - 1] == gates[k];
      if gates[k].fails && forall j :: 0 <= j < k - 1 ==> !tail[j].fails {
        forall j | 0 <= j < k ensures !gates[j].fails {
          if j > 0 { assert gates[j] == tail[j - 1]; }
        }
      }
      if forall j :: 0 <= j < k ==> !gates[j].fails {
        forall j | 0 <= j < k - 1 ensures !tail[j].fails {
          assert tail[j] == gates[j + 1];
        }
      }
    }
  }

  lemma PrefixInjective(a: string, b: string)
    ensures InaptoPrefix + a == InaptoPrefix + b <==> a == b
  {
    if InaptoPrefix + a == InaptoPrefix + b {
      assert a == (InaptoPrefix + a)[|InaptoPrefix|..];
      assert b == (InaptoPrefix + b)[|InaptoPrefix|..];
    }
  }

  /** Every verdict is "Apto" or the prefixed reason of one of the gates. */
  lemma {:induction false} VerdictReason(gates: seq<Gate>)
    ensures Verdict(gates) == Apto
         || exists i :: 0 <= i < |gates| && Verdict(gates) == InaptoPrefix + gates[i].reason
  {
    if gates != [] && !gates[0].fails {
      VerdictReason(gates[1..]);
      if Verdict(gates) != Apto {
        var i :| 0 <= i < |gates[1..]| && Verdict(gates[1..]) == InaptoPrefix + gates[1..][i].reason;
        assert gates[i + 1] == gates[1..][i];
      }
    }
  }

  /** The candidate is "Apto" exactly when not obese, fit in health, passed
      the physical test, not contraindicated and approved by the instruction team. */
  lemma StatusAptoIff(obeso: Answer, saude: Answer, testeFisico: Answer,
                      contraIndicado: Answer, aptoInstrucao: Answer)
    ensures Verdict(Gates(obeso, saude, testeFisico, contraIndicado, aptoInstrucao)) == Apto
        <==> obeso == Nao && saude == Sim && testeFisico == Sim
             && contraIndicado == Nao && aptoInstrucao == Sim
  {
    var g := Gates(obeso, saude, testeFisico, contraIndicado, aptoInstrucao);
    VerdictAptoIff(g);
    assert !g[0].fails && !g[1].fails && !g[2].fails && !g[3].fails && !g[4].fails
       <==> forall i :: 0 <= i < |g| ==> !g[i].fails;
  }

  /** The status names gate k exactly when gate k fails and every gate
      before it in the chain passes. */
  lemma StatusFirstFailingGate(obeso: Answer, saude: Answer, testeFisico: Answer,
                               contraIndicado: Answer, aptoInstrucao: Answer, k: nat)
    requires k < 5
    ensures var g := Gates(obeso, saude, testeFisico, contraIndicado, aptoInstrucao);
      (Verdict(g) == InaptoPrefix + g[k].reason
       <==> g[k].fails && forall j :: 0 <= j < k ==> !g[j].fails)
  {
    var g := Gates(obeso, saude, testeFisico, contraIndicado, aptoInstrucao);
    VerdictNamesFirstFailure(g, k);
  }
}
