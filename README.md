# Candidate evaluation engine — Dafny model

This project models the decision logic of `main.py` in the "Seleção Complementar"
conscript evaluation app. The app registers candidates ("conscritos"), gives each
one an "Apto"/"Inapto" status and ranks them. It splits them into two platoons by
the first letter of their name and exports one platoon's rows as a report. The
Streamlit user interface and the Google Sheets transport are not modelled. The
sheet is modelled only as a sequence of data rows, without its header row.

Modules, one per component of the engine:

- `Scoring` (`scoring.dfy`): the `peso_mencao` table and the defaulted lookup
  `peso_mencao.get(m, 0)`.
- `Eligibility` (`eligibility.dfy`): the status chain. `Classify` is the
  `if/elif` chain as written. `Verdict(Gates(...))` is an independent
  reference: the first failing gate in the list gives the reason.
- `Records` (`records.dfy`): the six-column row
  `[nome, menção, habilidades_str, habilidades_descricao, peso, status]`.
- `Registration` (`registration.dfy`): the skills normalisation, both duplicate
  tests, and the `Session` class. `Session` holds the session list
  `conscritos` and the sheet's rows, and its `Register` method changes them.
- `Ranking` (`ranking.dfy`): `sorted(..., key=(peso, status == "Apto", nome),
  reverse=True)`, modelled as a stable insertion sort (`Rank`). Its contract
  states that it is a sorted permutation of its input, and the lemmas prove
  that it is stable.
  `RankUnique` shows it is the only arrangement with those properties.
- `Platoons` (`platoons.dfy`): the two platoon filters, the report's row
  selection `gerar_relatorio_pelotao` and the collapsed "Situação" column.
- `Strings`, `Seqs`: Python's `str` ordering, `in` on strings, `upper()` on
  one character and `str(n)`, plus the list comprehension used as a filter.

The code's comment calls the name order "alfabética". Because `reverse=True`
applies to the whole key tuple, names end up in *descending* order. The model
follows the code (`Ranking.RankOrder`, `Ranking.RankNamesDescendingExample`).
The interview mention is not a gate in the status chain: it only sets the weight.

## Model

| member | source | states |
|---|---|---|
| `Scoring.Weight` | main.py:90 | The lookup gives a weight from 0 to 10: 10 exactly for "Excelente", and 0 exactly for "Insuficiente" or a mention missing from the table. |
| `Scoring.WeightTable` | main.py:17-23 | The table gives 10/8/6/4/0 for Excelente/Muito Bom/Bom/Regular/Insuficiente. Its keys are exactly the select box options. Any other string gets weight 0. |
| `Scoring.WeightsFollowSelectBoxOrder` | main.py:17-23 | Going down the select box, the weights strictly decrease. |
| `Eligibility.Gates` | main.py:49-57 | The chain's five gates in order (obesity, health, physical test, contraindication, instruction), with distinct reasons. Gate 0 passes exactly when obeso=Não, gate 1 when saúde=Sim, gate 2 when teste físico=Sim, gate 3 when contra-indicado=Não, gate 4 when instrução=Sim. |
| `Eligibility.Verdict` | main.py:48-58 | Every verdict is "Apto" or starts with "Inapto - ". |
| `Eligibility.Classify` | main.py:48-58 | The `if/elif` chain returns the reference verdict: the reason of the first failing gate, or "Apto". |
| `Eligibility.VerdictSkipsPassedGates` | main.py:48-58 | Gates that pass do not affect the verdict. |
| `Eligibility.VerdictAtFirstFailure` | main.py:49-58 | When gate k fails and every earlier gate passes, the verdict is "Inapto - " followed by gate k's reason. |
| `Eligibility.VerdictAptoIff` | main.py:48-58 | A gate list's verdict is "Apto" exactly when no gate fails. |
| `Eligibility.VerdictNamesFirstFailure` | main.py:48-58 | When the reasons are distinct, the verdict names gate k exactly when gate k fails and every earlier gate passes. |
| `Eligibility.VerdictReason` | main.py:48-58 | Every verdict is "Apto" or "Inapto - " followed by one gate's reason. |
| `Eligibility.PrefixInjective` | main.py:50-58 | Two "Inapto - " statuses are equal exactly when their reasons are equal. |
| `Eligibility.StatusAptoIff` | main.py:48-58 | The status is "Apto" exactly when obeso=Não, saúde=Sim, teste físico=Sim, contra-indicado=Não and instrução=Sim. |
| `Eligibility.StatusFirstFailingGate` | main.py:48-58 | The status names gate k (obesity, health, physical, contraindicated, instruction) exactly when gate k fails and all earlier gates pass. |
| `Records.Names` | main.py:65 | The name column: one entry per row, entry i is row i's name. |
| `Records.Mentions` | main.py:65 | Column 1 (the mention): one entry per row, entry i is row i's mention. |
| `Registration.NormaliseSkills` | main.py:61-62 | The count string is "-" exactly when the count is 0, and then the description is "-" too. Otherwise the count string is a non-empty digit string without a leading zero that parses back to the count, and the description is kept unchanged. |
| `Registration.RegisteredAsWritten` | main.py:65-66 | The test as written is true exactly when some session row's mention equals the name. |
| `Registration.Registered` | main.py:65-66 | The intended test is true exactly when some session row's name equals the name. |
| `Registration.DuplicateTestAsWrittenChecksMentions` | main.py:65-66 | Concrete discrepancy: with "Ana" already registered, the test as written misses "Ana" and flags "Excelente". |
| `Registration.Session.constructor` | main.py:13-14 | A session starts with an empty list, and the sheet keeps its rows. |
| `Registration.Session.Register` | main.py:28-78 | Empty name: refused. Name already in the session: refused. Button not pressed: nothing is saved. Otherwise the row `[nome, menção, skills, description, peso_mencao[menção], status]` is appended to the sheet and to the session list. Nothing else changes. Names stay distinct and every row stays well formed, so field 4 is the table weight of field 1. |
| `Strings.Less` | main.py:92 | Python's string `<` separates different strings, and a proper prefix is below the longer string. |
| `Strings.Contains` | main.py:95 | `sub in s` needs `sub` no longer than `s`, and holds whenever `sub` is a prefix of `s`. |
| `Strings.Upper` | main.py:95-96 | Upper case leaves A–Z unchanged and maps a–z to the matching capital. The result is in "ABCDE" exactly for initials A–E in either case, and in "FGHIJ" exactly for F–J in either case or U+0131. |
| `Strings.NatToString` | main.py:61 | `str(n)` is a non-empty string of digits with no leading zero. |
| `Strings.ParseNatToString` | main.py:61 | `int(str(n)) == n`. |
| `Strings.LessTotal` | main.py:92 | Any two different names are ordered one way or the other by Python's string `<`. |
| `Strings.LessTransitive` | main.py:92 | Python's string `<` is transitive. |
| `Ranking.Key` | main.py:89-93 | The key tuple of a row: its table weight (0 to 10), whether its status is "Apto", and its name. |
| `Ranking.KeyLess` | main.py:89-93 | Tuple comparison: a key is never below itself. Different weights are ordered by weight. At equal weight and different status, the non-"Apto" key is below. |
| `Ranking.Rank` | main.py:89-93 | The ranking is a permutation of the input rows (same multiset, same length), and no row has a lower key than a row after it. |
| `Ranking.RankMembers` | main.py:89-93 | Every input row is in the ranking, and every ranked row is an input row. |
| `Ranking.KeyLessTotal` | main.py:89-93 | The key order is a strict total order on key tuples: two distinct keys are ordered exactly one way. |
| `Ranking.KeyNotLessTransitive` | main.py:89-93 | "Not below" on keys is transitive. |
| `Ranking.RankOrder` | main.py:89-93 | For rows i < j in the ranking: the weight does not increase. At equal weight, an "Apto" row is never after a non-"Apto" row. At equal weight and status, the names do not increase. |
| `Ranking.RankStable` | main.py:89-93 | Rows with equal keys keep their input order. |
| `Ranking.RankFilter` | main.py:129-138 | Filtering the ranking gives the same result as ranking the filtered rows. |
| `Ranking.RankUnique` | main.py:89-93 | Any descending arrangement that keeps equal-key rows in input order equals `Rank`. So `Rank` is exactly the stable sort with `reverse=True`. |
| `Ranking.RankNamesDescendingExample` | main.py:89-93 | Two Excelente/Apto rows "Ana" and "Bruno" come out as Bruno, Ana. |
| `Platoons.Platoon` | main.py:95-96 | A platoon view is an order-preserving subsequence of the ranking. It equals the ranking of that platoon's rows alone, and it is descending. An input row is in it exactly when its uppercased initial is in the platoon's letters, and every row in it is such an input row. |
| `Platoons.Report` | main.py:129-138 | With "ABCDE" when `pelotao == 1` and "FGHIJ" for every other value: the report is the ranking of the rows whose uppercased initial is in those letters. It is descending and an order-preserving subsequence of the full ranking. An input row is in it exactly when its initial is in those letters. |
| `Platoons.PlatoonInitials` | main.py:95-96 | Platoon 1 takes initials A–E in either case. Platoon 2 takes F–J in either case, plus U+0131. |
| `Platoons.PlatoonMembership` | main.py:95-96 | A row is in a platoon view exactly when it is an input row whose uppercased initial is in the platoon's letters. It appears there as many times as in the input. |
| `Platoons.PlatoonsDisjoint` | main.py:95-96 | No row is in both platoons. A row whose initial is outside A–J is in neither. |
| `Platoons.InitialSelectsOnePlatoon` | main.py:95-96 | No initial selects both platoons. An initial outside A–J (either case) and U+0131 selects neither. |
| `Platoons.Situacao` | main.py:106 | The column reads "Inapto" exactly when the status contains "Inapto", and "Apto" otherwise. |
| `Platoons.SituacaoIdempotent` | main.py:117 | Collapsing the column twice is the same as collapsing it once. |
| `Platoons.SituacaoOfVerdict` | main.py:106 | On a status from the chain, the column reads "Apto" exactly when the status is "Apto". |
| `Platoons.DisplayRows` | main.py:106 | The displayed table has the same rows in the same order. Only the status column is collapsed. |
| `Platoons.Exibir` | main.py:95-117 | The two displayed tables have the platoon views' rows in ranking order. Every column other than "Situação" (name, mention, skills count, skills description, weight) is unchanged. A displayed status is "Inapto" exactly when the row's status contains "Inapto", and "Apto" exactly when it does not. |
| `Platoons.ExibirIdempotent` | main.py:106-117 | Collapsing the displayed tables' status column again changes nothing. |
| `Seqs.Filter` | main.py:95 | A comprehension never grows the list. Every element it keeps is an input element satisfying the condition, and an input element is kept exactly when it satisfies the condition. |
| `Seqs.FilterIsSubsequence` | main.py:95-96 | A comprehension's result is a subsequence of its input. |
| `Seqs.FilterMultiset` | main.py:95-96 | A comprehension keeps every satisfying element as many times as it occurs, and no other element. |

## Findings

| source | as written | input that shows it | evidently intended | confidence | as-written member | corrected member |
|---|---|---|---|---|---|---|
| main.py:65 | The duplicate list is `[c[1] for c in conscritos]`. Column 1 of a session row is the mention, not the name. | Session holding `("Ana", "Excelente", ...)`. Registering "Ana" again is admitted. A candidate named "Excelente" is refused although nobody has that name. | `[c[0] for c in conscritos]`: compare with the names | high (not executed) | `Registration.RegisteredAsWritten`, shown by `Registration.DuplicateTestAsWrittenChecksMentions` | `Registration.Registered`, used by `Registration.Session.Register`, whose `Valid()` keeps the names distinct |

## Left out

- Streamlit widgets, layout, CSS/HTML, images, cell colouring and the rerun model. These are user interface. The form answers and the "Gravar" button press are parameters of `Register`.
- Google Sheets authorisation, `get_all_values` and `append_row`. These are external I/O. The sheet is the `sheet` field, holding data rows only (the header row is excluded).
- Reading rows from the sheet turns every cell into text, so the weight column comes back as a string. This is not modelled: the weight is an `int`, and the ranking never reads that column.
- A sheet row with fewer than six cells makes Python fail with an index error. This is not modelled: `Row` always has six fields.
- The Python failure of `c[0][0]` on an empty name is a precondition (`NonEmptyNames`), not behaviour.
- pandas DataFrame construction, `to_csv` and UTF-8 encoding. This is library serialisation. `Report` models the report's rows, that is, the six-column projection.
- Strings.Upper: models `str.upper()` only for ASCII letters and U+0131 (dotless i), which becomes 'I'. Every other character is left unchanged. Some characters have multi-character upper cases that contain letters from A to J (for example 'ﬀ' gives "FF", 'ﬁ' gives "FI" and 'ǰ' gives "J" with a combining caron). None of these strings is a substring of "ABCDE" or "FGHIJ", and U+0131 is the only non-ASCII character whose upper case is a single letter from A to J. So platoon membership is unaffected.
- Registration.Session.Register: requires a mention from the table and a count from 0 to 10. The select box and the number input guarantee both, and `peso_mencao[menção]` would fail on any other mention.
- Registration.Session.Register: uses the corrected duplicate test (see Findings). The test as written is `Registration.RegisteredAsWritten`.
