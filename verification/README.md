# Commission-advance engine, modelled in Dafny

The repository is a small web service that quotes how much commission an
insurance agent can safely be advanced. It takes two uploaded CSV files:

- the carrier remittance ledger, one payment per row, where a negative amount
  is a claw-back;
- the CRM policy roster, one submitted policy per row, with its expected
  lifetime value (LTV).

This project models the service's core in three parts.

- **The engine** (`app/business_logic.py`):
  - payment deduplication;
  - earned amount per (policy, agent);
  - latest status per (policy, agent);
  - the eligibility rule;
  - the roster/ledger join;
  - per-agent aggregation with the 80 % rate and the 2 000 cap;
  - the two entry points, `compute_quotes` and `get_detailed_agent_quotes`.
- **The validators** (`app/validators.py`):
  - the per-table checks of both CSVs, with 1-based row numbers that count the header line;
  - the combined `validate_csvs`;
  - `clean_and_prepare_data`.
- **The upload guards** (`app/utils.py`):
  - the filename test;
  - the all-files test;
  - the blank-content test.

Modules, one per file:

| module | file | models |
|---|---|---|
| `Wrappers` | wrappers.dfy | `Option`, `Outcome`, `Result` |
| `Strings` | strings.dfy | Python's `str.isspace`, `strip`, `lower` (ASCII letters) and `endswith` |
| `Lines` | lines.dfy | `"\n".join` and `str.split("\n")` |
| `StringOrder` | string_order.dfy | Python's code-point string order, and sorting by agent id: the model sorts by insertion, and `SortedUnique` makes its result the one any correct sort, `sorted()` included, gives |
| `Calendar` | calendar.dfy | `strptime(s, '%Y-%m-%d')` acceptance, and dates as `date.toordinal()` day numbers |
| `Records` | records.dfy | the dataclasses of app/models.py and the configuration values |
| `Dedup` | dedup.dfy | `deduplicate_payments` |
| `PolicyState` | policy_state.dfy | `calculate_earned_per_policy` and `get_latest_policy_status` |
| `Eligibility` | eligibility.dfy | `determine_eligibility` |
| `Analysis` | analysis.dfy | `analyze_policies` |
| `AgentQuotes` | agent_quotes.dfy | `calculate_agent_quotes` |
| `Pipeline` | pipeline.dfy | `compute_quotes`, `get_detailed_agent_quotes`, `get_today`, and worked ledgers |
| `Validators` | validators.dfy | app/validators.py |
| `Uploads` | uploads.dfy | the three guards of app/utils.py |

The engine's DataFrames are modelled as sequences of records:

- Amounts are exact `real`s.
- Dates are day numbers, so that 2025-07-06 is 739438.
- The configuration `Config(rate, cap, windowDays, today)` is a parameter. The code reads it from module globals and `get_today()`.

The validators work on raw tables:

- A cell is `Missing` (pandas NaN) or `Text`. Every column is taken to be a text column. pandas reads a column as text whenever it holds a value that is not a number; an all-numeric or all-empty column is not modelled (see `Validators.CleanTable` under "## Left out").
- Python's `float()` is a parameter, `toFloat: string -> Option<FloatValue>`.
- Errors are structured values, not formatted strings.

The model follows the code as written, including these easily misread points:

- **Deduplication key.** The key is (policy_id, paid_date, amount). It has no agent_id. Two agents' identical payments on one policy therefore collapse into one.
- **Kept row.** The kept row of a key has the greatest status in code-point order, so "cancelled" beats "active".
- **Which ledger each value reads.** The latest status is read from the ledger as given. The earned amount is read from the deduplicated ledger.
- **Status whitespace.** Validation lower-cases the status but does not strip it, so `" active"` is rejected. Cleaning does strip it.
- **NaN cells.** A missing (NaN) amount or LTV passes validation: `float(nan)` succeeds and `nan < 0` is false.

## Model

| member | source | states |
|---|---|---|
| Dedup.Deduplicate | app/business_logic.py:28-30 | the kept rows are a sub-multiset of the ledger with pairwise distinct (policy_id, paid_date, amount) keys; a row is kept exactly when no row of its key has a greater status and every later row of its key a smaller one |
| Dedup.DeduplicateKeys | app/business_logic.py:28-30 | deduplication keeps every key of the ledger and introduces none |
| Dedup.KeptStatusIsGreatest | app/business_logic.py:27-30 | the kept row of a key carries a status no other row of that key exceeds, so a cancelled duplicate wins over an active one |
| Dedup.DeduplicateIdempotent | app/business_logic.py:18-30 | deduplicating twice is deduplicating once |
| Dedup.DeduplicateCount | app/business_logic.py:28-32 | the deduplicated ledger has exactly one row per distinct key, so the removed count is the number of duplicates |
| Dedup.Champion | app/business_logic.py:29-30 | among any prefix, the row of a key that the sort puts last: greatest status, and among equal statuses the last in input order |
| Dedup.SurvivorExists | app/business_logic.py:30 | every key present in the ledger has a surviving row |
| PolicyState.SumByKey | app/business_logic.py:49-52 | the group sum has exactly the ledger's (policy, agent) keys and agrees with the reference sum of each key's amounts, claw-backs included; an absent key reads as 0.0 |
| PolicyState.EarnedPerPolicy | app/business_logic.py:46-52 | earned per policy is the per-key sum of the deduplicated ledger, over exactly its keys |
| PolicyState.EarnedKeysFromLedger | app/business_logic.py:46-52 | every earned key is a (policy, agent) key of the raw ledger |
| PolicyState.LatestByKey | app/business_logic.py:72-76 | each key's entry is backed by a row of that key with the latest paid date, carrying that row's date and status |
| PolicyState.LatestPolicyStatus | app/business_logic.py:58-78 | every ledger key maps to the status of a row with the key's latest paid date, and no other key is present |
| PolicyState.LatestStatusOverride | app/business_logic.py:71-76 | a row dated strictly after all others of its key decides the key's status (a retroactive cancellation wins) |
| Eligibility.IsEligible | app/business_logic.py:92-93 | eligible exactly when the latest status is "active" and the submission day is at least the window of days before the reference date |
| Eligibility.EligibilityBoundary | app/business_logic.py:93 | the boundary day is eligible, the day after it is not |
| Eligibility.InactiveNeverEligible | app/business_logic.py:92 | a cancelled policy is never eligible |
| Eligibility.EligibilityMonotone | app/business_logic.py:92-93 | an earlier submission or a later reference date keeps an eligible policy eligible |
| Analysis.AnalyzePolicies | app/business_logic.py:110-141 | one analysis per roster row in roster order with copied ids and date; earned is the deduplicated sum of its key; status is a latest row's status or "active" by default; remaining is max(ltv - earned, 0); eligibility follows the rule on that status |
| Analysis.NoPaymentDefaults | app/business_logic.py:113-120 | a roster policy with no payments has earned 0.0, status "active", remaining max(ltv, 0), and its eligibility rests on its submit date alone |
| AgentQuotes.Accumulate | app/business_logic.py:156-168 | the per-agent accumulator has exactly the agents present, each with the reference sums of earned, eligible remaining and eligible count |
| AgentQuotes.ReferenceAppend | app/business_logic.py:162-168 | one more analysis adds its earned to its agent's total, and its remaining and one to the count only when eligible |
| AgentQuotes.AbsentAgent | app/business_logic.py:156-160 | an agent with no analyses has the zero totals the default dictionary starts from |
| AgentQuotes.FirstSeen | app/business_logic.py:173 | the agents in first-seen order are distinct and are exactly the agents present |
| AgentQuotes.SortedAgentIds | app/business_logic.py:191 | the agent ids sorted are strictly increasing and are one entry per agent present |
| AgentQuotes.CalculateAgentQuotes | app/business_logic.py:147-194 | quotes sorted strictly by agent id; each agent's totals equal the reference sums over its analyses; safe-to-advance is min(rate x eligible remaining, cap) |
| AgentQuotes.QuotesCoverAgents | app/business_logic.py:173-191 | exactly one quote per agent present |
| AgentQuotes.QuoteBounds | app/business_logic.py:175-185 | with a non-negative rate and cap and non-negative remainders, each advance lies in [0, cap] and the eligible count never exceeds the agent's policy count |
| AgentQuotes.EligibleCountBounded | app/business_logic.py:166-168 | an agent's eligible count is at most its number of policies |
| AgentQuotes.EligibleRemainingNonNegative | app/business_logic.py:166-167 | with non-negative remainders an agent's eligible remaining is non-negative |
| AgentQuotes.CapReached | app/business_logic.py:175-178 | at the default 0.8 rate, an eligible remaining of 3125 or more is capped at exactly 2000 |
| AgentQuotes.NoAnalysesNoQuotes | app/business_logic.py:171-194 | no analyses give no quotes |
| Pipeline.AnalysedAgents | app/business_logic.py:110-141 | the analysed agents are exactly the roster's agents |
| Pipeline.GetDetailedAgentQuotes | app/business_logic.py:235-240 | one quote per roster agent, sorted by agent id; each quote's earned, eligible remaining and eligible count are the reference sums over that agent's policy analyses, its advance is the smaller of the capped share and the cap, and lies in [0, cap] when rate and cap are non-negative |
| Pipeline.EmptyRosterNoQuotes | app/business_logic.py:235-240 | an empty roster yields no quotes whatever the ledger holds |
| Pipeline.EveryRosterAgentQuoted | app/business_logic.py:235-240 | every roster agent gets a quote, paid or not |
| Pipeline.ComputeQuotes | app/business_logic.py:197-228 | one response dictionary per detailed quote, in the same order, each reading back to that quote |
| Pipeline.DictRoundTrip | app/business_logic.py:219-225 | the response dictionary has exactly the five keys and loses nothing of the quote |
| Pipeline.FrozenTodayIsJulySixth | app/business_logic.py:13-15 | the frozen date 2025-07-06 is a valid date whose day number is the configured reference date |
| Pipeline.DuplicatePaymentCountsOnce | app/business_logic.py:18-30 | two identical 175 payments earn 175, not 350 |
| Pipeline.LastOfTwoKept | app/business_logic.py:28-30 | of two rows with one key and one status, the second is kept |
| Pipeline.ClawBackCancels | app/business_logic.py:39-93 | a payment of 200 and a later claw-back of -200 with status "cancelled" earn 0, leave "cancelled" as the policy's status, and make a long-submitted policy ineligible with its whole expected value remaining |
| Pipeline.ClawBackPair | app/business_logic.py:46-52 | a payment and a later same-size claw-back under one key both survive deduplication, sum to 0, and the later row's status is the key's status |
| Pipeline.ClawBackIneligible | app/business_logic.py:110-141 | after a claw-back row with a non-active status, the policy's analysis shows nothing earned, the whole expected value remaining, that status, and no eligibility |
| Pipeline.SharedKeyDropsOtherAgent | app/business_logic.py:28-30 | two agents' rows that agree on policy, date and amount collapse to one agent's row |
| Validators.IdProblems | app/validators.py:46-54 | an id problem is reported exactly when the id cell is missing or whitespace only, and no other problem is |
| Validators.DateProblems | app/validators.py:56-66 | no problem exactly when the cell is a text strptime accepts as %Y-%m-%d; a missing cell is "cannot be empty", anything else a format error carrying the text |
| Validators.AmountProblems | app/validators.py:68-75 | a problem exactly when the amount is a text float() rejects; negative amounts pass |
| Validators.StatusProblems | app/validators.py:77-83 | no problem exactly when the lower-cased, untrimmed status is "active" or "cancelled" |
| Validators.LtvProblems | app/validators.py:139-147 | a missing cell passes; a non-number is one error; a number is one error exactly when it is negative |
| Validators.ProblemsExactlyInvalid | app/validators.py:42-86 | a row has no problems exactly when it satisfies the independent validity predicate for its table |
| Validators.RowErrorsFrom | app/validators.py:42-86 | one entry per row with problems, in row order, numbered by index + 2, carrying that row's problems |
| Validators.ValidateTable | app/validators.py:11-88 | missing columns give exactly one error naming them; an empty table exactly one "empty" error; otherwise the per-row report |
| Validators.ValidTableExactly | app/validators.py:11-152 | a table validates clean exactly when its columns are present, it has rows, and every row is valid |
| Validators.ValidateCsvs | app/validators.py:155-181 | fails exactly when either table has errors; the carrier errors come first, then the CRM ones, each tagged with its table |
| Validators.FailureMessage | app/validators.py:178-179 | the message starts with "CSV validation failed:\n"; split at its newlines it is the header line followed by one line per error, in order, each the table prefix and the error's description, when no description holds a newline |
| Lines.SplitJoin | app/validators.py:179 | splitting `"\n".join(lines)` at newlines gives the lines back when there is at least one and none holds a newline |
| Lines.JoinSplit | app/validators.py:179 | joining the pieces of `s.split("\n")` with newlines gives `s` back |
| Validators.CleanRow | app/validators.py:199-212 | ids are stripped, a carrier status is lower-cased then stripped, every other column is unchanged |
| Validators.CleanTable | app/validators.py:199-212 | same columns and row count, each row cleaned as above |
| Validators.CleanAndPrepare | app/validators.py:186-218 | both tables keep their columns and rows in order; in each row the ids are stripped, the carrier status is lower-cased then stripped, and every other cell is unchanged |
| Validators.CleanRowIdempotent | app/validators.py:203-205 | cleaning a cleaned row changes nothing |
| Validators.CleanTableIdempotent | app/validators.py:199-212 | cleaning a cleaned table changes nothing |
| Validators.CleanedValidCarrierRow | app/validators.py:199-205 | a valid carrier row cleans to present ids and a status of exactly "active" or "cancelled" |
| Validators.StatusIgnoresCase | app/validators.py:80 | "ACTIVE" is an accepted status |
| Validators.StatusNotTrimmed | app/validators.py:80 | " active" is rejected, since validation does not strip |
| Validators.NegativeAmountAccepted | app/validators.py:70-71 | a negative amount is not a problem |
| Validators.LtvZeroBoundary | app/validators.py:142 | an LTV of zero passes and a negative one does not |
| Uploads.IsValidCsvFile | app/utils.py:7-13 | the filename guard; `ValidCsvFileExactly` and `StripTests` state what it accepts |
| Uploads.ValidCsvFileExactly | app/utils.py:9-13 | a filename passes exactly when present, not whitespace only, and its last four characters spell ".csv" in any case |
| Uploads.LowerSuffix | app/utils.py:12 | lower-casing and testing for ".csv" is the case-blind suffix test |
| Uploads.CaseDoesNotMatter | app/utils.py:12 | lower-casing a filename never changes the verdict |
| Uploads.AcceptedNames | app/utils.py:9-13 | "carrier.CSV", "crm.Csv" and a bare ".csv" pass |
| Uploads.RefusedNames | app/utils.py:9-13 | "crm.txt", no filename and a whitespace-only filename fail |
| Uploads.ValidateCsvFiles | app/utils.py:15-22 | true exactly when there is at least one file and every filename passes |
| Uploads.OneBadFileRejectsBatch | app/utils.py:19-21 | one failing filename rejects the batch |
| Uploads.CheckContent | app/utils.py:32-33 | content passes exactly when it has a non-whitespace character; otherwise the error is "<name> is empty" |
| Uploads.StripTests | app/utils.py:11 | the guards as written with `strip()` agree with the model's blankness tests |
| Strings.Strip | app/validators.py:48 | `strip()` leaves an infix of the text with whitespace only around it, is empty exactly for blank text, and starts and ends with non-whitespace |
| Strings.StripIdempotent | app/validators.py:203-205 | stripping twice is stripping once |
| Strings.StripLowerCommute | app/validators.py:203 | lower-casing and stripping commute |
| Calendar.ParseIsoDate | app/validators.py:62 | a text is accepted exactly when it spells a valid date as four ASCII digits of year, a one- or two-digit month and day in ASCII digits (the day may be space-padded) separated by '-', with nothing left over; the result is that date |
| Calendar.IsoFormatParses | app/validators.py:62 | every valid date written zero-padded as `YYYY-MM-DD` is accepted and read back as itself |
| Validators.ColumnOf | app/validators.py:21-28 | the column a header names spells that header back |
| Validators.HeadersDistinguishColumns | app/validators.py:21-29 | canonical columns are equal exactly when their headers are |
| Calendar.OrdinalOrder | app/business_logic.py:93 | day numbers order dates as the calendar does, and distinct dates have distinct day numbers |
| StringOrder.Sort | app/business_logic.py:191 | sorting distinct ids gives a strictly increasing sequence of the same ids |
| StringOrder.SortedUnique | app/business_logic.py:191 | two strictly sorted sequences of the same ids are equal, so the sorted order is unique |

## Left out

- Logging, HTTP routing (app/routes, app/main.py) and reading the configuration from the environment (app/config.py). The configuration is a `Config` parameter instead.
- `_read_file_content` and `_read_csv_file` (UTF-8 decoding), and the rest of `_parse_csv_content` after the blank-content test (`pd.read_csv` and its parser errors). These are I/O and third-party parsing.
- The conversion of validated text tables into payments and roster entries (`pd.to_datetime`, `pd.to_numeric` in `clean_and_prepare_data`, and the `strptime` of a string submit date in `analyze_policies`). The engine takes typed records directly.
- app/quotes.py, the older prototype the advance route still imports, is not part of this model.
- Floating point. Amounts are exact reals, so rounding in sums and in 0.8 x remaining is not modelled, nor are NaN amounts inside the engine.
- Validators.FailureMessage: the rendered text of each error is a parameter (`describe`). Python's set repr in the missing-columns message has no fixed element order, and the float repr in the LTV message is not modelled.
- Validators.CleanTable: requires the cleaned columns to be present. `clean_and_prepare_data` raises KeyError otherwise; its docstring says it runs after validation, which checks those columns. The model also takes the id and status columns to hold text. pandas infers the column types in `read_csv`, so an id column whose every value is a number arrives as a numeric column. Validation accepts such ids, since it tests `str(v).strip()`. The `.str.strip()` of `clean_and_prepare_data` then raises AttributeError, which the model does not show: it cleans the cells as text.
- Validators.CleanAndPrepare: models the string cleaning only. It shares `Validators.CleanTable`'s assumption of text id and status columns. The `pd.to_datetime` and `pd.to_numeric` conversions are listed above.
- Calendar.ParseIsoDate: year and day digits are ASCII only. The `\d` in strptime's `%Y` and `%d` patterns matches any Unicode decimal digit, and `int()` converts it, so Python also accepts dates written with, for example, fullwidth digits; the model rejects them.
- Validators.DateProblems: `\d` in strptime's pattern also matches non-ASCII decimal digits. The model accepts ASCII digits only.
- Strings.Lower: only ASCII letters are lower-cased, so the result differs from `str.lower()` on other text. The "active"/"cancelled" and ".csv" tests still agree with Python: the only non-ASCII characters whose Python lower case contains an ASCII letter are U+212A KELVIN SIGN, which becomes 'k' (a letter none of those words contains), and U+0130, which becomes 'i' followed by the non-ASCII U+0307 that stays in the text. Every other non-ASCII character lower-cases to non-ASCII text, as the model's identity map does. So no name or status the model refuses is accepted by Python, and none it accepts is refused.
- Dedup.Deduplicate: the kept rows are in input order, not in pandas' sorted order. Every caller only sums them.
- PolicyState.LatestPolicyStatus: among rows that share a key's latest date, the contract does not say which one supplies the status, since `sort_values('paid_date')` is not a stable sort by default.
- AgentQuotes.QuoteBounds: stated only for a non-negative rate and cap. The configuration parses arbitrary floats.
