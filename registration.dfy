/** The registration step of `coletar_dados`: validate the name, compute the
    status and the skills columns, refuse a candidate already in the session
    list, and on "Gravar" append the six-column row to the sheet and to the
    session list. */
module Registration {
  import opened Strings
  import opened Scoring
  import opened Eligibility
  import opened Records

  /** The skills columns: both become "-" when the count is 0; otherwise the
      count is written in decimal and the description is kept. */
  function NormaliseSkills(habilidades: nat, descricao: string): (r: (string, string))
    ensures r.0 == "-" <==> habilidades == 0
    ensures habilidades == 0 ==> r.1 == "-"
    ensures habilidades > 0 ==> |r.0| > 0 && AllDigits(r.0) && r.0[0] != '0' && ParseNat(r.0) == Some(habilidades)
    ensures habilidades > 0 ==> r.1 == descricao
  {
    if habilidades > 0 then
      ParseNatToString(habilidades);
      (NatToString(habilidades), descricao)
    else ("-", "-")
  }

  /** The duplicate test as written: the name is looked up among the values
      of column 1 of the session rows, which is the mention column. */
  predicate RegisteredAsWritten(conscritos: seq<Row>, nome: string)
    ensures RegisteredAsWritten(conscritos, nome)
        <==> exists i :: 0 <= i < |conscritos| && conscritos[i].mencao == nome
  {
    nome in Mentions(conscritos)
  }

  /** The duplicate test as intended: the name is looked up among the names
      of the session rows. */
  predicate Registered(conscritos: seq<Row>, nome: string)
    ensures Registered(conscritos, nome)
        <==> exists i :: 0 <= i < |conscritos| && conscritos[i].nome == nome
  {
    nome in Names(conscritos)
  }

  /** The test as written lets a second "Ana" through and refuses a
      candidate named like a mention, although nobody of that name exists. */
  lemma DuplicateTestAsWrittenChecksMentions()
    ensures var s := [Row("Ana", "Excelente", "-", "-", 10, "Apto")];
      && Registered(s, "Ana") && !RegisteredAsWritten(s, "Ana")
      && RegisteredAsWritten(s, "Excelente") && !Registered(s, "Excelente")
  {
  }

  datatype Outcome =
    | MissingName         // "Por favor, preencha o nome do conscrito."
    | AlreadyRegistered   // "O conscrito ... já foi registrado."
    | NotSaved            // the "Gravar" button was not pressed
    | Saved(row: Row)     // the row appended to the sheet and the session list

  /** The session state `st.session_state.conscritos` together with the data
      rows of the sheet (its header row excluded). */
  class Session {
    var conscritos: seq<Row>
    var sheet: seq<Row>

    /** Every session row is well formed and no name occurs twice. */
    ghost predicate Valid()
      reads this
    {
      && NamesDistinct(conscritos)
      && forall i :: 0 <= i < |conscritos| ==> WellFormed(conscritos[i])
    }

    /** A new session starts with an empty list; the sheet keeps what it holds. */
    constructor (sheet: seq<Row>)
      ensures Valid()
      ensures conscritos == [] && this.sheet == sheet
    {
      conscritos := [];
      this.sheet := sheet;
    }

    /** One pass of the registration form.  `mencao` is one of the select
        box options and `habilidades` lies within the number input's bounds. */
    method Register(nome: string, obeso: Answer, saude: Answer, testeFisico: Answer,
                    mencao: string, contraIndicado: Answer, aptoInstrucao: Answer,
                    habilidades: nat, descricao: string, gravar: bool)
      returns (outcome: Outcome)
      requires Valid()
      requires mencao in PesoMencao
      requires habilidades <= 10
      modifies this
      ensures Valid()
      ensures outcome == MissingName <==> nome == ""
      ensures outcome == AlreadyRegistered <==> nome != "" && Registered(old(conscritos), nome)
      ensures outcome == NotSaved <==> nome != "" && !Registered(old(conscritos), nome) && !gravar
      ensures outcome.Saved? ==>
        && outcome.row == Row(nome, mencao,
                              NormaliseSkills(habilidades, descricao).0,
                              NormaliseSkills(habilidades, descricao).1,
                              PesoMencao[mencao],
                              Verdict(Gates(obeso, saude, testeFisico, contraIndicado, aptoInstrucao)))
        && conscritos == old(conscritos) + [outcome.row]
        && sheet == old(sheet) + [outcome.row]
      ensures !outcome.Saved? ==> conscritos == old(conscritos) && sheet == old(sheet)
    {
      if nome == "" {
        return MissingName;
      }
      var status := Classify(obeso, saude, testeFisico, contraIndicado, aptoInstrucao);
      var skills := NormaliseSkills(habilidades, descricao);
      var existentes := Names(conscritos);
      if nome in existentes {
        return AlreadyRegistered;
      }
      if !gravar {
        return NotSaved;
      }
      var row := Row(nome, mencao, skills.0, skills.1, PesoMencao[mencao], status);
      VerdictReason(Gates(obeso, saude, testeFisico, contraIndicado, aptoInstrucao));
      sheet := sheet + [row];
      conscritos := conscritos + [row];
      outcome := Saved(row);
    }
  }
}
