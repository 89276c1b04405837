# ICU patient allocation: a Dafny model

This project models the decision core of an ICU bed-allocation tool. The
tool works in three stages:

- **Historical statistics.** Historical rows are grouped by subject. Each
  SOFA severity score is mapped to a predicted mortality. From these, every
  diagnosis code gets an expected treatment effect, one in the ICU and one
  in the general inpatient units (`historical_stat_process.py`).
- **Patient values and the linear program.** A patient's value is computed
  from these effects, the score and the age. The values go into a linear
  program that assigns every incoming and existing patient to the ICU, a
  general inpatient unit or the ICU waitlist. A solution vector of that
  program is read back into four lists of subject ids
  (`preliminary_experiment/model.py`).
- **Input regrouping.** The incoming and existing patient files are
  regrouped by subject (`process.py`).

Modules, in dependency order:

- `Mortality` (mortality.dfy): the score-to-mortality table. Python's
  rounding to three decimals is modelled as half-up rounding to thousandths.
- `SubjectRows` (subject_rows.dfy): the raw row record and the per-subject
  views of a prefix of rows. These are the first row, the last row, the
  first-wins diagnosis codes and the order of first appearance. The
  grouping contracts are stated over these views.
- `HistoricalStats` (historical_stats.dfy): the grouping loop over the
  historical rows.
- `EffectStats` (effect_stats.dfy): the following steps.
  - Patients are split by care setting. Only the exact result "ICU" counts
    as ICU.
  - Each code accumulates a tally of patients, deaths and summed predicted
    mortality, one tally per setting.
  - The tallies become the effect pairs: (summed mortality − deaths) /
    count, or 0 for a setting where the code never occurs.
- `Regroup` (regroup.dfy): the regrouping of incoming and existing rows,
  including the sticky status upgrade.
- `PatientValue` (patient_value.dfy): the following computations.
  - The age normalisation.
  - The life expectancy: 1 − M(s) plus a priority-weighted mean of the
    effects in the selected column, clamped to [0, 1]. The weights are
    (1/W)·(1/q).
  - The value w1·L + w2·age/100.
- `AllocationProblem` (allocation_problem.dfy): the construction of the
  objective, the two capacity rows, the one-option-per-patient equality
  rows and the bounds. A lemma gives feasibility its meaning: every
  patient takes one option, and both loads are within capacity. Another
  lemma says that minimising the objective maximises the assigned value.
- `ResultExtraction` (result_extraction.dfy): reading the allocation back
  from a solution. Each patient goes to the first of its three options
  whose variable is 1, and to the errors when none is.

Inputs that the program reads from files or module globals become
parameters:

- the rows;
- the statistics map;
- the weights w1 and w2;
- the capacities, as integers;
- the subject ids of the patients;
- the solution vector.

## Model

| member | source | states |
|---|---|---|
| Mortality.RoundThousandths | historical_stat_process.py:24 | the result has at most three decimals (1000 times it is an integer) and is within half a thousandth of the input, ties rounding up |
| Mortality.RoundThousandthsMonotone | historical_stat_process.py:24 | rounding preserves order |
| Mortality.LinearMortality | historical_stat_process.py:12-23 | the unrounded table gives a probability for every score in 0..24, at most 0.1 for scores up to 6 and at least 0.8 from 16 on |
| Mortality.LinearMortalityMonotone | historical_stat_process.py:12-23 | the unrounded table is non-decreasing on 0..24 |
| Mortality.MortalityBySofa | historical_stat_process.py:11-24 | for every score in 0..24 the mapped mortality lies in [0, 1] |
| Mortality.MortalityMonotone | historical_stat_process.py:12-24 | the mapping is non-decreasing in the score |
| Mortality.MortalityAnchors | historical_stat_process.py:12-24 | 0 at score 0, 1.0 at score 24, and the exact values at every band boundary (6, 7, 9, 10, 12, 13, 15, 16) |
| Mortality.MortalityBands | historical_stat_process.py:4-24 | scores 0-6 give at most 0.1, 7-9 give [0.15, 0.35], 10-12 give [0.4, 0.5], 13-15 give [0.55, 0.75], 16-24 give at least 0.8 |
| SubjectRows.SeenIffSomeRow | historical_stat_process.py:31-32 | a subject has an entry after n rows exactly when one of those rows names it |
| SubjectRows.FirstRowIndex | historical_stat_process.py:32-39 | the index is a row of the subject and no earlier row names it |
| SubjectRows.LastRowIndex | historical_stat_process.py:42 | the index is a row of the subject and no later row (within the prefix) names it |
| SubjectRows.CodesOfFirstWins | historical_stat_process.py:40-41 | a code is stored exactly when some row of the subject has it, and its priority is that of the earliest such row |
| SubjectRows.FirstAppearancesOrdered | historical_stat_process.py:29-33 | the order of insertion holds exactly the subjects seen, in strictly increasing order of their first rows |
| SubjectRows.FirstAppearancesDistinct | historical_stat_process.py:29-33 | each subject is inserted once |
| HistoricalStats.EntriesStep | historical_stat_process.py:29-42 | one more row keeps the key set equal to the subjects seen and every record equal to its subject's record |
| HistoricalStats.UpdateEntry | historical_stat_process.py:31-42 | the record built field by field (created from the row for a new subject, the row's code added if new, the row's result stored) is the reference one-row update of that subject's record |
| HistoricalStats.GroupedStep | historical_stat_process.py:29-42 | replacing the row's subject's record by its one-row update, and appending the subject to the order when new, keeps the keys, records and order exact |
| HistoricalStats.GroupHistory | historical_stat_process.py:29-42 | the keys are exactly the subjects of the rows. Each record has age, score, death flag and mortality of the score from the subject's first row, the result of its last row, and its first-wins codes. The insertion order is the order of first appearance |
| EffectStats.TallyCountIsContributors | historical_stat_process.py:59-82 | a tally's count is the number of patients of that setting carrying the code |
| EffectStats.TallySeenIffCarried | historical_stat_process.py:66-82 | a code has a non-zero count exactly when some patient of the setting carries it, and otherwise has the zero tally |
| EffectStats.SettingsPartition | historical_stat_process.py:66-82 | each patient counts in exactly one setting: the ICU and inpatient counts of a code add up to the number of patients carrying it |
| EffectStats.TallyBounds | historical_stat_process.py:69-73 | with death flags in 0..1 and mortality in [0, 1], 0 ≤ deaths ≤ count and 0 ≤ summed mortality ≤ count |
| EffectStats.AddPatient | historical_stat_process.py:67-73 | every code of the patient is bumped once (inserted as a one-patient tally when new), and no other code changes |
| EffectStats.TableStep | historical_stat_process.py:62-82 | adding a patient to its own setting's table only keeps both tables equal to the reference tallies |
| EffectStats.Accumulate | historical_stat_process.py:59-82 | each table holds exactly the codes seen in its setting, each with its reference tally (count, sum of death flags, sum of predicted mortality) |
| EffectStats.TreatmentEffect | historical_stat_process.py:108-114 | the effect times the number of patients is the summed mortality minus the deaths |
| EffectStats.TreatmentEffectBounds | historical_stat_process.py:108-114 | with deaths and summed mortality between 0 and the count, the effect lies in [-1, 1] |
| EffectStats.EffectBounds | historical_stat_process.py:107-114 | for well-formed patients every effect of every code lies in [-1, 1] |
| EffectStats.GroupedWellFormed | historical_stat_process.py:33-39 | when every death flag of the history is 0 or 1, every grouped record is well formed: its death flag is 0 or 1 and its predicted mortality lies in [0, 1] |
| EffectStats.GroupedEffectsBounded | historical_stat_process.py:29-114 | for such a history, the grouped records read back in order of first appearance give every code an effect in [-1, 1] in both settings |
| EffectStats.DeriveEffects | historical_stat_process.py:107-114 | the keys are the union of both tables' codes, and each pair holds (sum − deaths)/count per setting, or 0 for a setting without the code |
| EffectStats.HistoricalEffects | historical_stat_process.py:59-114 | the keys are exactly the codes some patient carries. Each pair is the ICU and inpatient effect of that code over the whole history. An empty history gives an empty map |
| Regroup.StatusUpgradeIff | process.py:16-17 | the status is 2 iff the type is 1 and some row of the subject is allocated to "INPATIENT", and otherwise equals the type |
| Regroup.StatusSticky | process.py:16-17 | once 2, the status stays 2 whatever rows follow |
| Regroup.EntriesStep | process.py:6-20 | one more row keeps key set and every entry exact |
| Regroup.Process | process.py:4-23 | one entry per distinct subject, with status as above, age and score from the first row, result from the last row, first-wins codes. Empty input gives an empty map |
| PatientValue.NormalizeAge | preliminary_experiment/model.py:29-30 | the normalised age times 100 is the age, and ages 0..100 give [0, 1] |
| PatientValue.Clamp | preliminary_experiment/model.py:46-47 | the result lies in [0, 1]. An input already in [0, 1] is returned unchanged, larger inputs give 1 and smaller ones give 0 |
| PatientValue.FirstMissingCode | preliminary_experiment/model.py:40-41 | the code is that of a record whose code is unknown and every earlier record's code is known |
| PatientValue.WeightTotal | preliminary_experiment/model.py:42 | with sequence numbers of at least 1, the raw weight total is non-negative and positive for a non-empty list |
| PatientValue.WeightShareIsRatio | preliminary_experiment/model.py:42-45 | the normalised weights of a prefix sum to its share of the raw total |
| PatientValue.WeightsSumToOne | preliminary_experiment/model.py:39-45 | the per-diagnosis weights (1/W)(1/q) sum to 1 |
| PatientValue.WeightPositive | preliminary_experiment/model.py:45 | each per-diagnosis weight is positive |
| PatientValue.WeightsPositive | preliminary_experiment/model.py:39-45 | all per-diagnosis weights are positive |
| PatientValue.DotBetween | preliminary_experiment/model.py:43-45 | a weighted sum with non-negative weights and terms in [lo, hi] lies between lo and hi times the weight total |
| PatientValue.WeightedEffectBetween | preliminary_experiment/model.py:39-45 | the weighted term lies between the least and the greatest of the selected effects |
| PatientValue.CollectEffects | preliminary_experiment/model.py:37-42 | with all codes known, the pair (sequence number, selected effect) of each diagnosis in order and the raw weight total; otherwise the KeyError of the first unknown code |
| PatientValue.WeightedSum | preliminary_experiment/model.py:43-45 | the pairs weighted by (1/W)(1/q) sum to the priority-weighted mean effect |
| PatientValue.CalculateLp | preliminary_experiment/model.py:34-48 | with all codes known, the result is the clamped 1 − M(s) plus weighted mean of the selected column. Otherwise it is the KeyError of the first unknown code. A value is always in [0, 1] |
| PatientValue.FirstMissingIsFirst | preliminary_experiment/model.py:40-41 | the code at which the lookup loop stops is the first missing code |
| PatientValue.CalculateVp | preliminary_experiment/model.py:52-54 | with non-negative weights, a life expectancy in [0, 1] and an age of at most 100, the value lies in [0, w1 + w2] |
| PatientValue.ValueMonotone | preliminary_experiment/model.py:52-54 | with non-negative weights the value grows with life expectancy and age |
| AllocationProblem.FirstUnknownPatient | preliminary_experiment/model.py:113-125 | the first patient having an unknown code: every earlier patient's codes are known |
| AllocationProblem.PatientValuePair | preliminary_experiment/model.py:115-118 | the pair is (value in the ICU, value outside it), or the KeyError of the patient's first unknown code |
| AllocationProblem.ObjectiveStep | preliminary_experiment/model.py:114-118 | appending one patient's three entries keeps the objective exact |
| AllocationProblem.AppendObjective | preliminary_experiment/model.py:114-125 | one loop of the objective: on success, patients lo..hi-1 are all known and their three entries each are appended; otherwise the KeyError of the first patient with an unknown code, which lies before hi |
| AllocationProblem.BuildObjective | preliminary_experiment/model.py:113-125 | length 3(Pi+Pe). Entry 3k is −value(ICU) of patient k, 3k+1 is −value(non-ICU) and 3k+2 is 0, incoming patients first. Otherwise the KeyError of the first patient with an unknown code |
| AllocationProblem.ObjectiveOfValues | preliminary_experiment/model.py:113-125 | the objective is the objective of the patients' value pairs |
| AllocationProblem.Repeat3At | preliminary_experiment/model.py:128-129 | a repeated [a, b, c] holds a, b, c at each patient's three columns |
| AllocationProblem.EqRowBuilt | preliminary_experiment/model.py:134-139 | the row built from zeros, three ones and zeros has ones exactly at patient k's three columns |
| AllocationProblem.BuildEqualities | preliminary_experiment/model.py:132-139 | Pi+Pe rows, the k-th with ones exactly at columns 3k..3k+2, every right-hand side 1 |
| AllocationProblem.BuildBounds | preliminary_experiment/model.py:141-143 | 3n bounds, each (0, 1) |
| AllocationProblem.BuildProblem | preliminary_experiment/model.py:113-143 | the whole program: the objective above, rows [1,0,0]ⁿ and [0,1,1]ⁿ bounded by [icuCap, rNoicu], the equality rows and the bounds. Unknown codes give the KeyError |
| AllocationProblem.IcuRowDot | preliminary_experiment/model.py:128 | the ICU row measures the sum of the ICU variables |
| AllocationProblem.GeneralRowDot | preliminary_experiment/model.py:129 | the general row measures the sum of the general and waitlist variables |
| AllocationProblem.EqRowDot | preliminary_experiment/model.py:134-139 | patient k's equality row measures the total of its three variables |
| AllocationProblem.BedProblemFeasibility | preliminary_experiment/model.py:127-143 | a point is feasible iff every variable is in [0, 1], each patient's three variables sum to 1, and both loads are within their capacities |
| AllocationProblem.ObjectiveIsMinusValue | preliminary_experiment/model.py:113-125 | the objective at x is minus the value x assigns, so minimising it maximises the value |
| ResultExtraction.DecideFirstOne | preliminary_experiment/model.py:64-74 | a patient's bucket is the first of its three columns holding 1: that column holds 1 and no earlier one does, and an error means none of the three holds 1 |
| ResultExtraction.Routed | preliminary_experiment/model.py:61-74 | a bucket's list holds at most one id per patient |
| ResultExtraction.Route | preliminary_experiment/model.py:59-74 | each id is appended, in index order, to the list of its bucket: the first of its three variables equal to 1, or the errors |
| ResultExtraction.Extract | preliminary_experiment/model.py:57-90 | each list holds the incoming ids of its bucket followed by the existing ids of its bucket, existing patient j read at its own columns 3(Pi+j).. |
| ResultExtraction.ExtractAsWritten | preliminary_experiment/model.py:57-90 | the same, with existing patient j read at columns 3j.., the columns of incoming patient j |
| ResultExtraction.RoutedMembers | preliminary_experiment/model.py:61-74 | an id is in a bucket's list exactly when one of its patients falls in that bucket |
| ResultExtraction.RoutedPartition | preliminary_experiment/model.py:59-88 | the four lists of one group together hold one id per patient |
| ResultExtraction.AllocationPartition | preliminary_experiment/model.py:57-90 | the four lists together hold Pi+Pe ids |
| ResultExtraction.DecideIntegral | preliminary_experiment/model.py:62-74 | on a 0/1 point where a patient takes one option, the patient is no error and its bucket is where its 1 is |
| ResultExtraction.RoutedLoads | preliminary_experiment/model.py:59-88 | on such a point, no patient is an error, the ICU list counts the ICU load, and the general plus waitlist lists count the general load |
| ResultExtraction.IntegralSolutionRespected | preliminary_experiment/model.py:57-90 | an integral feasible point read back with the correct offset has no errors and fills at most icuCap ICU beds and at most rNoicu other places |
| ResultExtraction.TwoPatientPointFeasible | preliminary_experiment/model.py:127-143 | the point sending one patient to the ICU and the other to the general unit is feasible for one ICU bed and one other place |
| ResultExtraction.AsWrittenOverfillsIcu | preliminary_experiment/model.py:75-86 | a feasible point with ICU capacity 1 where, as written, two patients are listed in the ICU, while the corrected reading lists one in the ICU and one in the general unit |

## Left out

- File and JSON input/output, and the `__main__` drivers of
  `historical_stat_process.py` and `process.py`. Their inputs are
  sequences of records.
- The solver calls (`scipy.optimize.linprog`, model.py:146-156). They are
  a foreign library. The solution vector is an input of the extraction.
- All printing.
- `preliminary_experiment/test_data.py` is not part of this model. Its
  constants and sample data become parameters: Pi and Pe (as the lengths
  of the id and patient sequences), the capacities, w1, w2 and the
  statistics map.
- Floating point. All probabilities, weights and values are `real`.
  Python's half-even `round(x, 3)` is modelled as half-up rounding to
  thousandths, which approximates it. The two agree on every table value
  except exact ties.
- The second copy of the mortality mapping (model.py:6-25) is not modelled.
  It divides 0.1 by the score on 0..6, which is undefined at 0 and
  decreasing on 1..6. It also returns its other branches unrounded.
  `calculate_l_p` calls this copy. PatientValue.CalculateLp uses the
  canonical mapping of `historical_stat_process.py:3-24` instead.
- The commented-out clamped-effect variant (historical_stat_process.py:89-105)
  is not modelled, because it is dead code.
- String-to-integer parsing of `seq_num` and `sofa`. These fields are
  integers in the model.
- The preconditions that replace parsing and the mapping's assertion:
  - Sequence numbers must be at least 1 (`PositiveSeqNums`).
  - Scores must be in 0..24 wherever the mortality mapping is applied.
  - A failing assertion or a division by zero is not modelled as an error
    path.
- The unused `import random` of `process.py`.
- HistoricalStats.GroupHistory: requires the score of each subject's first
  row to be in 0..24 (`FirstScoresInRange`), because only those rows reach
  the mortality mapping. The source raises an assertion error otherwise,
  and that path is not modelled.
- EffectStats.HistoricalEffects: takes the grouped records as a sequence.
  The file written by the grouping and read back is left out.
- EffectStats.DeriveEffects: the output map is unordered. Python's
  insertion order of the keys (ICU codes first) is not captured. The loops
  over a table's keys pick keys in an unspecified order. Each result is
  order-independent, because every code is visited once.
- PatientValue.CalculateLp: the `noicu_flag` index 0/1 is modelled as the
  boolean `noIcu`. False selects the ICU effect column and true selects the
  non-ICU column.
- The sample dictionaries keyed by patient number (`patient_list[patient_id]`,
  `s_list[patient_id - 1]`, `patient_info[...]`) become one `Patient` value
  per patient: its diagnosis records, score and age.
- The extraction reads each subject id from the first diagnosis record of
  a patient. The model takes the ids as a sequence.

## Findings

| source | as written | input that shows it | evidently intended | confidence | as-written member | corrected member |
|---|---|---|---|---|---|---|
| preliminary_experiment/model.py:75-86 | existing patient j is judged on `arr[j*3]`, `arr[j*3+1]`, `arr[j*3+2]`, the variables of incoming patient j | Pi = 1 and Pe = 1, solution [1, 0, 0, 0, 1, 0] (incoming patient to the ICU, existing patient to the general unit), ICU capacity 1: the point is feasible, yet both ids are listed in the ICU | read existing patient j at columns 3(Pi+j), 3(Pi+j)+1 and 3(Pi+j)+2, its own variables | not executed | ResultExtraction.ExtractAsWritten, ResultExtraction.AsWrittenOverfillsIcu | ResultExtraction.Extract, ResultExtraction.IntegralSolutionRespected |
