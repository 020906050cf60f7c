# Verified model of the application server's core

This project models five parts of the server and proves what they are for:

- **The parser combinators** (`include/gcm/parser`). A rule gets the position by reference and does not
  put it back when it fails; only the extractor, the error rule, the exception, the character and
  literal rules and an iteration that found too little do. `Engine.Eval` is that semantics as a
  total function, `Engine.Matcher` the same as the program runs it, and the laws of `EngineLaws`,
  the termination theorem and the comparison with textbook PEG are about it.
- **JSON** (`include/gcm/json`). The grammar is written with those rules, non-restoring as it is; its
  actions drive a tree builder with a parent chain; the printer is the inverse. The round trip is
  proved against the real grammar, not against a cleaned-up one.
- **The schema validator** (`include/gcm/json/validator`), which reports every problem and fills in what is
  missing.
- **The thread pool** (`include/gcm/thread/pool.h`) before `stop()`, as a transition system with a program
  counter for each worker, a wait set, one mutex and a keeper; and the pool's own methods as runs
  of it.
- **The publish/subscribe broker** (`src/modules/rtjs/pubsub.h`), with polls interleaving inside a publish,
  and its cleanup; **the XML writer** (`include/gcm/xml/writer.h`); and **the HTTP header** printer and parser
  (`include/gcm/socket/http.h`).

Where the code departs from its documentation or from the standards it names, the model follows
the code, and the difference is a theorem:

- `JsonPeg.DocumentAgrees`, `StringAgrees`: parts of the JSON grammar fail without giving back what they
  consumed, and the optional parts and alternatives after them go on from there. The code and the
  textbook reading of its grammar agree on a text if and only if the code does not accept it having
  strayed like that; on printed values `JsonPegText.TextAgrees` says which those are.
  `EngineAndPegDiffer` has four texts that it accepts and RFC 8259 does not: `"\u"`, `[{]`, `{"a":[}`
  and `["\]`.
- `JsonTexts.LayoutParses`, `NoSpaceBeforeComma`: a comma after the last element is accepted, and white space
  before a comma in an object is not.
- `JsonExact.RoundTripsExactly`: escapes stay raw and integers go through `stoi`, so a value comes back
  under an exact condition on its strings, keys and numbers. The branch of the printer that would
  escape quotes is never reached, because `isprint` comes first.
- `PoolBound.NeverOverkillsExactly`: the keeper computes in an int. Below 2^32, it never kills under
  `min_spare` if and only if `min_spare` is at most 2^31; above, it works with the remainder modulo 2^32.
- `ValidatorRepeats.RepeatsExactly`, `VerdictsExactly`: when two fields of an object schema have one
  name, what the first fills in can hide what the second would report. The reports are right whatever
  field comes second if and only if the first never fills anything, and the verdicts if and only if
  it never changes what it accepts. `ValidatorAgain.AgainExactly` is the same for validating twice.
- `PoolKeeper.StartCountIsExact`, `RefillAfterKill`: an unsigned sum wraps, and the keeper then starts
  workers right after it killed as many.
- `Broker.Channel.TestActiveSessions`: the grace period of a channel is subtracted the wrong way
  round, so it keeps a channel only while the clock is more than 60 seconds behind it.

## Layout

`grammar`, `engine`, `engine_laws`, `termination`, `peg` hold the combinators; `json_*` the JSON part,
with `json_reader` as the closed form of its grammar; `validator` and `validator_*` the validator; `pool`
and `pool_*` the pool; `pubsub`, `broker` the broker; `http_headers`, `http_roundtrip` the headers;
`xml_writer`, `xml_roundtrip`, `xml_reader` the XML writer. `dafny verify dfyconfig.toml` verifies all of
it.

## Model

| member | source | states |
|---|---|---|
| Grammars.ClassesOfC | include/gcm/parser/terminal.h:233-292 | the character classes stand to one another as the C standard has it, with digits, letters and printable characters by their codes |
| Engine.Eval | include/gcm/parser/composite.h:61-66 | evaluation is total for every grammar that passes the static check, by a measure on (input left, left rank, rule), never moves back, and consumes when a rule that is not nullable succeeds |
| Engine.Matcher.Match | include/gcm/parser/extractor.h:59-72 | the call operators, with positions copied and committed and callables called in place, give Eval's verdict, position and trace |
| Engine.Matcher.MatchException | include/gcm/parser/composite.h:138-152 | both operands run from copies and the position moves only when the first matches and the second does not |
| Engine.Matcher.MatchLiteral | include/gcm/parser/terminal.h:199-223 | the comparing loop succeeds exactly when the literal is at the position, and moves only then |
| Engine.Matcher.MatchIteration | include/gcm/parser/composite.h:187-212 | the counting loop equals the recursive Iterate, including the place where a failed body is left |
| EngineLaws.RangesInOrder | include/gcm/parser/extractor.h:59-72 | whatever the rule and the text, every range handed to a callable lies between where the rule started and the end of the text, in failed parts and attempts given back too |
| EngineLaws.RangesMatch | include/gcm/parser/extractor.h:59-72 | and each is a range that a rule the callable is bound to matches from there, exactly, even when a part around it fails later |
| EngineLaws.HeldBefore | include/gcm/parser/extractor.h:59-72 | whatever the rule and the text, a callable that throws leaves the caller's position no further than the start of the range it was given |
| EngineLaws.MaybeRuns | include/gcm/parser/composite.h:187-212 | an optional rule always succeeds and stays wherever its body stopped, even if that failed |
| EngineLaws.StarRuns | include/gcm/parser/composite.h:187-212 | `*a` is `a` then `*a`, up to and including the place where a last `a` failed |
| EngineLaws.PlusRuns | include/gcm/parser/composite.h:187-212 | `+a` fails in place when the first `a` fails, and is otherwise `a` then `*a` |
| EngineLaws.FirstMatch | include/gcm/parser/composite.h:99-105 | when the alternatives before the k-th fail in place, a choice does what the k-th does |
| EngineLaws.LaterAlternatives | include/gcm/parser/composite.h:99-105 | alternatives after one that failed having moved go on from there, and its calls stay made |
| Termination.WellFormedReturns | include/gcm/parser/composite.h:196-204 | an evaluator without any measure, given enough fuel, returns Eval's outcome for every well-formed grammar |
| Termination.EmptyIterationNeverReturns | include/gcm/parser/composite.h:196-204 | an unlimited iteration over a body that succeeds in place returns for no amount of fuel |
| Termination.LeftRecursionNeverReturns | include/gcm/parser/generic.h:73-86 | neither does any rule on a circle of rules that enter one another at one place, through slots, operands that come first, or operands after ones that left the position there |
| Termination.SelfStartNeverReturns | include/gcm/parser/generic.h:73-86 | an instance: a slot that holds a conjunction starting with the slot itself |
| Peg.ChecksAreSound | include/gcm/parser/composite.h:187-212 | the syntactic checks Fixed, Infallible and Restores mean what they say of evaluation, for every text |
| Peg.SafeMeansPeg | include/gcm/parser/composite.h:61-66 | in a grammar whose left alternatives and iteration bodies restore on failure, every rule has the verdict, and on success the end position, of standard PEG |
| Peg.SafeIterationMeansPeg | include/gcm/parser/composite.h:187-212 | the same for iterations, count included |
| Peg.RestoringIsNeeded | include/gcm/parser/composite.h:99-105 | a rule that agrees with PEG goes on agreeing as a left alternative or as an optional rule if and only if it did not fail after moving |
| Peg.WrappedAlternative | include/gcm/parser/extractor.h:59-72 | a callable bound to an alternative makes the choice a textbook one, because the extractor gives back what its rule consumed |
| Json.InsertIsMapUpdate | include/gcm/json/json.h:86-125 | storing a member makes it the one found under its key, leaves the other keys alone and keeps the keys ascending |
| Json.LessIsStrictAndTotal | include/gcm/json/json.h:86-88 | the key order is irreflexive, asymmetric and total |
| JsonPrinting.LessIsLexicographic | include/gcm/json/json.h:86-88 | and it is the lexicographic one: a proper start comes first, and otherwise the lesser of the first characters that differ decides |
| Json.ToString | include/gcm/json/json.h:104-125 | the printing loops over members and items produce the recursive text, with commas between and null for a missing member |
| Json.GetString | include/gcm/json/json.h:236-272 | the loop with its sticky unicode flag writes printable characters raw, and every character from the first uncommon one on as a code |
| Builder.ActionsKeepChain | include/gcm/json/parser.h:59-71 | every action keeps the parent chain a rightmost path into the tree, or raises |
| Builder.RunsKeepChain | include/gcm/json/parser.h:73-197 | and so does every sequence of actions |
| Builder.ReplayFillsHole | include/gcm/json/parser.h:133-197 | the events of any value whose numbers fit, replayed at any open hole, store exactly that value there and return to the parent, or stop at the root |
| Builder.ReplayAppend | include/gcm/json/parser.h:73-197 | replaying two sequences is replaying one after the other, with the first fault final |
| Builder.CompleteRefusesInput | include/gcm/json/parser.h:67-71 | once the root is complete every further action is refused |
| Builder.LastValueWins | include/gcm/json/parser.h:176-188 | a repeated key keeps the last value |
| Builder.OtherKeysKept | include/gcm/json/parser.h:176-188 | storing further members changes nothing under other keys |
| Builder.StoiOfDecimal | include/gcm/json/parser.h:104-111 | `stoi` gives back a printed integer exactly when it fits in 32 bits, and is out of range otherwise |
| Builder.TreeBuilder.Receive | include/gcm/json/parser.h:73-197 | the mutating builder does what Apply says, fault or not |
| Builder.TreeBuilder.LevelUp | include/gcm/json/parser.h:59-65 | goes to the parent, or stops at the root |
| JsonGrammar.JsonTerminates | include/gcm/json/parser.h:221-265 | the recursive JSON grammar passes the termination check |
| JsonMatching.CharsRun | include/gcm/json/parser.h:223-223 | on every text the run of string characters ends where Scan says, inside a bad escape included |
| JsonMatching.EscapeRuns | include/gcm/json/parser.h:223-223 | a bad escape leaves the position after the backslash, or after the `u` |
| JsonMatching.QuotedRuns | include/gcm/json/parser.h:236-236 | a quoted run fires its action on the characters before it knows whether a closing quote follows |
| JsonMatching.VDoubleFails | include/gcm/json/parser.h:228-234 | a plain integer is no double, and the failed attempt gives everything back |
| JsonMatching.VIntRuns | include/gcm/json/parser.h:228-229 | an optional sign and the maximal run of digits, for every text |
| JsonReader.ValueIs | include/gcm/json/parser.h:263-263 | on every text the value rule has the verdict, the position and the calls of a recursive-descent reader, failures that have moved included |
| JsonReader.ItemsAre | include/gcm/json/parser.h:238-242 | so have the optional items of an array, in which an item that failed after moving stays consumed |
| JsonReader.MembersAre | include/gcm/json/parser.h:253-254 | and the optional members of an object, in which a key, a colon or a value that is missing leaves what was consumed |
| JsonParse.ParseText | include/gcm/json/parser.h:212-272 | matcher and builder together compute Parse: value, null or exception, and where each of them leaves the caller's position |
| JsonRoundTrip.ScanStopsAtQuote | include/gcm/json/parser.h:223-223 | a quoted string is read to its closing quote exactly when it is well spelled |
| JsonRoundTrip.ReadsValue | include/gcm/json/parser.h:263-265 | the value rule reads the printed text of every value whose strings and keys are well spelled, calling exactly that value's events |
| JsonTheorems.ParseReadsText | include/gcm/json/parser.h:212-272 | at any place in any text, a printed value is parsed as what a map-based tree makes of it, and the position ends after it and its white space |
| JsonWeights.RunsAdd | include/gcm/json/parser.h:73-197 | whatever the actions and their order, and whatever is measured, the strings and keys of the tree amount to no more than those the actions were given: none is invented or used twice |
| JsonExact.ValueTakes | include/gcm/json/parser.h:236-263 | on every text the strings and keys that are read are runs of it that start right after a quote, one after another without overlap |
| JsonExact.RoundTripsExactly | include/gcm/json/json.h:104-125 | a value comes back from its printed text if and only if its strings are printable and well spelled, its keys well spelled, its numbers fit and it is what a map-based tree without null pointers holds; then all of the text is consumed |
| JsonConverse.EventsComeBack | include/gcm/json/parser.h:263-263 | wherever a value of any shape is printed, the value rule calls exactly that value's events if and only if every string in it is printable and well spelled and every key well spelled |
| JsonFaults.SpelledRoundTrip | include/gcm/json/parser.h:212-272 | parsing the text of such a value gives what a map-based tree makes of it if every number fits; otherwise it raises out of range and leaves the position before the number, or after the first bracket |
| JsonFaults.DoubleParses | include/gcm/json/parser.h:113-121 | a text that is one number with a dot or an exponent becomes a double if it is neither too great nor too small for one, and otherwise raises out of range with the position at its start |
| JsonFaults.ItemsFindContainers | include/gcm/json/parser.h:143-151 | on no text is the action for an item or a member called while the pointer it follows is null |
| JsonCalls.NumbersAreNumbers | include/gcm/json/parser.h:104-121 | on no text is `stoi` or `stod` given what is not a number |
| JsonTheorems.IntRoundTrip | include/gcm/json/parser.h:104-111 | an integer comes back when it fits in 32 bits, and otherwise raises with the position at its start |
| JsonTheorems.StringRoundTrip | include/gcm/json/json.h:236-272 | a string comes back if and only if it is printable and well spelled |
| JsonTexts.LayoutParses | include/gcm/json/parser.h:221-265 | a value is read from every layout of it, to the end of the text: any of the six white space characters around it, after an opening bracket, a comma and a colon, before a colon and a closing bracket and after an item of an array, and one more comma after the last element |
| JsonTexts.NothingStarts | include/gcm/json/parser.h:221-265 | any character that is not white space and cannot start a value, a sign and a digit included, gives no value, raises nothing and leaves the position before it, whatever comes after it |
| JsonTexts.NoSpaceBeforeComma | include/gcm/json/parser.h:253-261 | white space before a comma in an object gives no value and leaves the position at the comma, whatever members stand before it and whatever comes after it |
| JsonTexts.StringsComeBack | include/gcm/json/parser.h:223-223 | which strings between quotes come back, from their first characters on: a plain character other than a quote, a backslash with one of its eight letters, `\u` with four of the 22 hexadecimal digits, and a bare `\u` at the end |
| JsonTexts.WordsParse | include/gcm/json/parser.h:225-226 | the three words are null, true and false |
| JsonNumbers.IntegerParses | include/gcm/json/parser.h:104-111 | digits with either sign or none and any leading zeros, up to what is no part of a number, are that integer if it is an int and otherwise raise out of range with the position at the start |
| JsonNumbers.FractionParses | include/gcm/json/parser.h:113-121 | a number with a fraction ends at the first character that is no digit, an exponent included; it is stored if it is below 2^1024 - 2^970 and loses nothing for being too small, and otherwise raises out of range |
| JsonNumbers.ExponentParses | include/gcm/json/parser.h:231-234 | so does a whole number with an exponent |
| JsonPrinting.PrintedString | include/gcm/json/json.h:236-272 | a string of bytes is printed as it is, five characters by their short escapes, up to its first uncommon character; that one and all after it are codes of two digits, or of eight when the byte is negative as a char |
| JsonBatch.SplitBody | src/handlers/http-json-rpc/http_handler.cc:99-106 | the loop over the body collects, object by object, what the recursive Split collects and stops at the same place; what it does with each object is left out |
| JsonBatch.BatchRoundTrip | src/handlers/http-json-rpc/http_handler.cc:99-121 | printed objects with white space between and after them are split into exactly those objects, in order, up to the end of the body |
| JsonBatch.OtherValueAborts | src/handlers/http-json-rpc/http_handler.cc:99-121 | a value that is no object ends the batch with the exception of the wrong type, after the objects before it |
| JsonBatch.MisfitAborts | src/handlers/http-json-rpc/http_handler.cc:99-121 | so does a value with a number that does not fit, as out of range |
| JsonPeg.JsonClaimsHold | include/gcm/json/parser.h:221-265 | the parts claimed to restore on failure do |
| JsonPeg.JsonIsNotSafe | include/gcm/json/parser.h:236-242 | the JSON grammar as a whole is outside the safe class |
| JsonPeg.PegValueIs | include/gcm/json/parser.h:221-263 | on every text the textbook reading of the value rule is what the reader reads without going on past a part that failed having moved |
| JsonPeg.StringAgrees | include/gcm/json/parser.h:223-236 | on every text, code and textbook agree on a string literal if and only if its complete characters are not followed by a bare `\u` and a quote |
| JsonPeg.ValueAgrees | include/gcm/json/parser.h:238-263 | and on a value, an array and an object if and only if the code does not accept it having strayed |
| JsonPeg.DocumentAgrees | include/gcm/json/parser.h:265-265 | and so on a whole document |
| JsonPegText.TextAgrees | include/gcm/json/parser.h:223-265 | on the text of a value whose strings and keys are well spelled, code and textbook agree if and only if none of them ends in a bare `\u` |
| JsonPeg.EngineAndPegDiffer | include/gcm/json/parser.h:221-265 | four texts that the code accepts to their end and the textbook reading of its grammar does not |
| Validator.Check | include/gcm/json/validator/detail/flags.h:39-108 | a definition reports its problems in order, succeeds exactly when there are none, and leaves the value filled in |
| Validator.CheckKind | include/gcm/json/validator/detail/validators.h:53-79 | a present value of the type, by its constructor, is accepted without a report; otherwise there is exactly one problem, which Misfit writes out: code, text and the seven type names, expected before got |
| Validator.KindReport | include/gcm/json/validator/detail/validators.h:53-79 | for every type and value: absent is MustBePresent, null that is not expected is CannotBeNull, any other constructor is WrongType, and nothing else is ever reported of a type |
| Validator.CheckArray | include/gcm/json/validator/detail/validators.h:99-108 | the elements are validated only when the value is an array |
| Validator.CheckItems | include/gcm/json/validator/detail/validators.h:102-105 | the loop validates and replaces every element, without stopping at a failure |
| Validator.CheckObject | include/gcm/json/validator/detail/validators.h:122-141 | fields first, then the keys that no field names |
| Validator.CheckFields | include/gcm/json/validator/detail/validators.h:151-160 | every field is looked up, inserted when missing, and validated in the object that the fields before it left |
| Validator.CheckKeys | include/gcm/json/validator/detail/validators.h:131-137 | one problem for each key without a field, in key order |
| ValidatorLaws.ReportedIsViolations | include/gcm/json/validator/detail/validators.h:122-160 | when no later field repeats a name that an earlier field may fill (RepeatsExactly says why that is the condition), the problems reported are, in order, the violations by the original value |
| ValidatorReports.ViolationsAreComplaints | include/gcm/json/validator/detail/validators.h:53-160 | a problem is a violation if and only if the schema, at whatever depth and through whatever wrappers, meets a part of the value of which there is that to say; codes and texts are written out |
| ValidatorReports.OneProblemEach | include/gcm/json/validator/detail/validators.h:53-79 | of a value without parts, or of another type than asked for, at most one problem is reported |
| ValidatorReports.ObjectInOrder | include/gcm/json/validator/detail/validators.h:122-141 | the problems of the fields come in the order of the fields, wherever they are split, and after them one for each key that no field asks for, in ascending order |
| ValidatorReports.ArrayInOrder | include/gcm/json/validator/detail/validators.h:99-108 | those of the items in the order of the items |
| ValidatorRepeats.RepeatsExactly | include/gcm/json/validator/detail/validators.h:151-160 | whatever field of its name comes after it and whatever is validated, the problems reported are the violations by the original value if and only if the field never fills anything |
| ValidatorRepeats.VerdictsExactly | include/gcm/json/validator/detail/validators.h:151-160 | and a value is accepted exactly when it conforms, whatever field of its name comes after it, if and only if the field never changes a value that it accepts |
| ValidatorRepeats.CallsExactly | include/gcm/json/validator/detail/params.h:47-108 | the same for the arguments of a call |
| ValidatorAgain.AgainExactly | include/gcm/json/validator/detail/validators.h:151-160 | what was accepted once is accepted again, whatever field that fills nothing stands before it under its name, if and only if the field never fills in a missing value, or the first key of an object, that it accepts |
| ValidatorLaws.KeepsIsExact | include/gcm/json/validator/detail/flags.h:39-108 | the syntactic test for a definition that never fills anything is exact: it holds of those that leave every value as it is, and of no other |
| ValidatorLaws.NoViolationsIsConformance | include/gcm/json/validator/detail/validators.h:53-141 | there is no violation if and only if the value conforms to the schema |
| ValidatorLaws.FilledIsSettled | include/gcm/json/validator/detail/flags.h:100-108 | when no later field repeats a name that an earlier field may fill: whatever was validated, a second validation changes nothing; every key is there and every default in place |
| ValidatorLaws.FilledConforms | include/gcm/json/validator/detail/validators.h:122-160 | with distinct field names, a conforming value still conforms after validation |
| ValidatorLaws.FieldsFilledLookup | include/gcm/json/validator/detail/validators.h:151-160 | when no later field repeats a name that an earlier field may fill, the last field of each name fills what was there, and the other keys are untouched |
| ValidatorParams.ParamDefinitions.Validate | include/gcm/json/validator/detail/params.h:47-57 | throws exactly when there is a problem, with all of them, and leaves the padded and filled arguments either way |
| ValidatorParams.ParamDefinitions.CheckFrom | include/gcm/json/validator/detail/params.h:77-108 | pads missing arguments, validates the rest after a failure, and reports superfluous ones with both counts |
| ValidatorParams.AcceptedIsConforming | include/gcm/json/validator/detail/params.h:47-108 | when no field repeats a name that an earlier one may fill, accepted if and only if there are not too many arguments and each, absent ones included, conforms; CallsExactly has the exact condition |
| ValidatorParams.ReportsAreViolations | include/gcm/json/validator/detail/params.h:77-96 | under the same condition, the diagnostics are the violations by the arguments as passed |
| ValidatorReports.CallReport | include/gcm/json/validator/detail/params.h:77-108 | a problem is reported of a call if and only if some parameter complains of the argument passed for it, or there are too many arguments and it says how many are accepted and how many given |
| ValidatorReports.CallInOrder | include/gcm/json/validator/detail/params.h:77-108 | in the order of the parameters, with the one about superfluous arguments last |
| ValidatorParams.SecondChangesNothing | include/gcm/json/validator/detail/params.h:47-108 | under the same condition, and whatever was passed, validation leaves a complete value for each parameter and a second validation changes nothing |
| ValidatorParams.SecondValidation | include/gcm/json/validator/detail/params.h:47-108 | with distinct field names, accepted arguments become exactly one complete, conforming value for each parameter, and validate again without change |
| ValidatorParams.DuplicateHidesViolation | include/gcm/json/validator/detail/validators.h:151-160 | any default hides that a later field of the same name is missing, whenever the default would do for that field |
| ValidatorParams.HiddenInstance | include/gcm/json/validator/detail/validators.h:151-160 | an instance: a default integer, and then an integer of the same name that must be there |
| ValidatorParams.DuplicateIsRefusedLater | include/gcm/json/validator/detail/validators.h:151-160 | and with a repeated name, what a later field fills in can be refused by a second validation, though the first reported exactly the violations |
| PoolSafety.StepKeepsCounters | include/gcm/thread/pool.h:84-127 | every step keeps the free, busy and starting counters equal to the number of workers in those phases |
| PoolSafety.StepKeepsLocks | include/gcm/thread/pool.h:96-113 | every step keeps the mutex with the one thread that is inside |
| PoolSafety.StepKeepsListed | include/gcm/thread/pool.h:242-251 | the list holds exactly the workers not told to quit, each once |
| PoolSafety.StepKeepsCollected | include/gcm/thread/pool.h:226-229 | the others are in to_collect until they are gone |
| PoolSafety.StepKeepsQuitters | include/gcm/thread/pool.h:97-104 | a worker told to quit never runs a task again, and no other leaves |
| PoolSafety.StepKeepsLedger | include/gcm/thread/pool.h:106-123 | tasks added are the tasks taken followed by the queue; each taken one is over once or held by one worker |
| PoolSafety.StepKeepsWakeups | include/gcm/thread/pool.h:183-188 | while a live worker sleeps, queued tasks are covered by workers that will look without being notified |
| PoolKeeper.KillCountIsExact | include/gcm/thread/pool.h:239-239 | the number to kill is the true surplus if and only if that is an int |
| PoolBound.NeverOverkillsExactly | include/gcm/thread/pool.h:236-256 | for every configuration: in every reachable state of the killing loop min_spare live spare workers remain and the list is not empty, if and only if min_spare is at most 2^31 or the loop can never begin |
| PoolBound.BoundBelowIntRange | include/gcm/thread/pool.h:239-239 | for every min_spare below 2^32 that is so if and only if min_spare is at most 2^31 |
| PoolBound.CastKeepsRemainder | include/gcm/thread/pool.h:239-261 | whatever min_spare is, both counts are computed from its remainder modulo 2^32 |
| PoolKeeper.HugeSpareEmptiesList | include/gcm/thread/pool.h:236-256 | an instance: with a min_spare of 2^32 - 1 the keeper reaches a state where it has killed its only worker and its iterator is past the end of the empty list |
| PoolKeeper.StartCountFits | include/gcm/thread/pool.h:261-264 | whatever the counters, wrapped or not, the list plus the number to start is at most max_workers |
| PoolKeeper.StartCountIsExact | include/gcm/thread/pool.h:261-264 | for every min_spare and max_workers, a pass starts max(0, min(deficit, room)) if and only if the sum in the guard does not wrap past max_workers or the room, as an int, is not positive; when it wraps, the list is filled up |
| PoolKeeper.StepKeepsSpares | include/gcm/thread/pool.h:236-256 | what the killing loop has still to kill can be killed leaving min_spare live spare workers |
| PoolKeeper.NoLostWakeup | include/gcm/thread/pool.h:96-104 | in every reachable state with the mutex free and a worker asleep, the queue is no longer than the workers about to look at it |
| PoolKeeper.QueuedTaskIsTaken | include/gcm/thread/pool.h:96-113 | in every reachable state with the mutex free, a task queued and a worker asleep or waiting for the mutex, two steps of one worker take the first task |
| PoolKeeper.TasksAreConserved | include/gcm/thread/pool.h:106-123 | in every reachable state no task is lost, duplicated or reordered, and each one taken is over or with exactly one worker, never both |
| PoolKeeper.CountersAreExact | include/gcm/thread/pool.h:84-127 | in every reachable state the counters are the numbers of workers in the phases |
| PoolKeeper.ListIsBounded | include/gcm/thread/pool.h:258-273 | in every reachable state the list has at most max_workers entries |
| PoolKeeper.NeverOverkills | include/gcm/thread/pool.h:236-256 | for min_spare up to 2^31, during and after every killing pass min_spare live spare workers remain, and the list is never emptied under its iterator |
| PoolPass.PassMissesNoSleeper | include/gcm/thread/pool.h:242-251 | in every reachable state of the killing loop, none of the listed workers it has stepped past, but perhaps the first, is asleep or about to look again |
| PoolPass.ShortPassLeavesNoSleeper | include/gcm/thread/pool.h:242-251 | in every reachable state in which a pass ends with workers still to be killed, no listed worker after the first is asleep |
| PoolKeeper.JoinWaitsForNoTask | include/gcm/thread/pool.h:226-229 | once the mutex is free, the worker the keeper joins ends by at most three steps of its own, none of them a task |
| PoolKeeper.RefillAfterKill | include/gcm/thread/pool.h:258-273 | a reachable state in which the keeper starts two workers just after killing two, with min_spare live spare workers there |
| PoolObject.ThreadPool.AddWork | include/gcm/thread/pool.h:183-188 | adding work is the corresponding step |
| PoolObject.ThreadPool.KillSpares | include/gcm/thread/pool.h:236-256 | the loop that erases, restarts at the first element and steps past it is a run of the killing steps; it kills as many as it decided, or else leaves no idle worker after the first; of a list that is all asleep it kills that many or all but one, and of a single one that one |
| PoolObject.ThreadPool.StartSpares | include/gcm/thread/pool.h:258-273 | the starting loop is a run of the starting steps, and adds as many workers, all of them starting, as it decided |
| PubSub.StepKeepsDelivery | src/modules/rtjs/pubsub.h:84-120 | every step keeps every session's deliveries and queue in line with the log |
| PubSub.BroadcastOrder | src/modules/rtjs/pubsub.h:158-165 | in every reachable state what a session's polls returned, then its queue, is the log since it subscribed, short by the message being fanned out until its turn |
| PubSub.OneOrder | src/modules/rtjs/pubsub.h:158-198 | any two sessions agree: the later one's stream is the end of the earlier one's |
| PubSub.ErasedKeepsOrder | src/modules/rtjs/pubsub.h:265-276 | a session erased under a poll keeps a prefix of what it would have got |
| PubSub.ErasedLosesNothing | src/modules/rtjs/pubsub.h:102-120 | and still has all that it had when it was listed, for the poll that holds it |
| PubSub.IdsAreFresh | src/modules/rtjs/pubsub.h:57-60 | an id is never given out twice by one channel |
| PubSub.PolledSessionStays | src/modules/rtjs/pubsub.h:122-124 | a session that a poll resets at some time is listed in every later state before that time plus its timeout, whatever happens meanwhile |
| PubSub.NewSessionStays | src/modules/rtjs/pubsub.h:72-80 | so is a new session, before the time of its subscription plus the timeout it asked for |
| PubSub.DrainedSessionStays | src/modules/rtjs/pubsub.h:95-108 | and one that a poll drains, before its last activity plus its timeout: the reset comes before the mutex, and draining later buys no further time |
| PubSub.LateDrainBuysNoTime | src/modules/rtjs/pubsub.h:95-108 | an instance: a session drained within its timeout is erased before the time of the drain plus its timeout |
| PubSub.CleanupIsExact | src/modules/rtjs/pubsub.h:238-258 | whatever polls do during a cleanup, it keeps every session whose timeout had not run out at the time it read, leaves none of which that is so at its end, and one that had run out before only if a poll reset it meanwhile |
| Broker.Channel.Publish | src/modules/rtjs/pubsub.h:158-165 | the fan-out loop appends the message to every session once, and each session's stream still is its part of the log |
| Broker.Channel.Subscribe | src/modules/rtjs/pubsub.h:170-182 | a new id and an empty session, the others untouched |
| Broker.Channel.Poll | src/modules/rtjs/pubsub.h:203-213 | returns the queued messages in order and empties that queue only, or reports that there is no such session |
| Broker.Channel.TestActiveSessions | src/modules/rtjs/pubsub.h:238-258 | the rescanning loop ends with exactly the sessions whose last activity plus timeout is after the time read, unchanged, and the result is true if and only if one is left or the last activity of the channel lies more than 60 seconds ahead of the clock |
| Broker.PubSubBroker.GetChannel | src/modules/rtjs/pubsub.h:344-357 | finds the channel or makes an empty one under that name |
| Broker.PubSubBroker.Clean | src/modules/rtjs/pubsub.h:359-380 | the sweep keeps exactly the channels with a session whose last activity plus timeout is after the time read, each with exactly those sessions |
| Broker.PublishIsARun | src/modules/rtjs/pubsub.h:158-165 | the whole publish is a run of the fine steps, in whatever order the sessions come |
| Broker.CleanIsARun | src/modules/rtjs/pubsub.h:238-258 | so is the whole cleanup |
| HttpHeaders.FieldsRun | include/gcm/socket/http.h:487-505 | on every text the header grammar reads names, bodies and folds as FieldsAt says, unfinished fields and folds included |
| HttpHeaders.FieldRuns | include/gcm/socket/http.h:500-503 | one field: a name without a colon, or a first line without an end, fails after having fired |
| HttpHeaders.FoldsRun | include/gcm/socket/http.h:494-498 | folded lines go on as long as white space starts them; a last one without a line end stays consumed |
| HttpRoundTrip.HttpRequest.ReadFields | include/gcm/socket/http.h:536-554 | matching and then the three actions collect HeadersAt after the headers already there |
| HttpRoundTrip.FieldsReplay | include/gcm/socket/http.h:536-554 | the events of any text collect exactly the fields that were completed, with folded pieces joined by blanks |
| HttpRoundTrip.ToString | include/gcm/socket/http.h:139-148 | the printing loop produces the block and an empty line |
| HttpRoundTrip.HeaderAtIsOk | include/gcm/socket/http.h:489-498 | only printable names without a colon, and non-empty values without a line end that do not start with white space, are ever collected |
| HttpRoundTrip.FoldedHeaderReads | include/gcm/socket/http.h:487-505 | a value that goes on over any number of lines starting with white space is read as its pieces with one blank between them, up to the first line that does not |
| HttpRoundTrip.HeadersRoundTrip | include/gcm/socket/http.h:139-148 | a list of headers is read back from its printed block, in order, if and only if its names and values are portable; then all of the text is read |
| XmlWriter.InlineReplace | include/gcm/xml/writer.h:160-166 | the in-place loop replaces every occurrence once, from the left, and ends although the pattern may occur in its replacement |
| XmlWriter.PassesMap | include/gcm/xml/writer.h:168-177 | the four passes equal one map over the characters |
| XmlWriter.Escape | include/gcm/xml/writer.h:168-177 | so escaping is that map |
| XmlWriter.DecodeMapped | include/gcm/xml/writer.h:168-177 | decoding the predefined entities gives the original back |
| XmlWriter.Element.Child | include/gcm/xml/writer.h:88-92 | ends the parent's start tag and opens a new element |
| XmlWriter.Element.AddText | include/gcm/xml/writer.h:95-107 | ends the start tag once and writes the escaped text |
| XmlWriter.Element.AddAttribute | include/gcm/xml/writer.h:124-130 | raises if and only if the start tag is no longer open, writing nothing then, and otherwise writes a blank, the name and the escaped value in quotes |
| XmlWriter.Element.Destroy | include/gcm/xml/writer.h:72-86 | closes an empty element in its start tag and another with an end tag |
| XmlRoundTrip.WritesNode | include/gcm/xml/writer.h:72-158 | the calls for a tree, made after anything, add exactly its text and leave the elements around it open |
| XmlRoundTrip.RunsInOrder | include/gcm/xml/writer.h:72-130 | calls on a fresh writer succeed if and only if they are in order, by the calls alone: every call but the beginning of an element stands inside one, and every attribute comes right after the beginning of its element or another attribute of it |
| XmlReader.TreeRoundTrip | include/gcm/xml/writer.h:72-158 | an element written by the calls is read back, by a reader that normalises line ends and attribute values, if and only if its names are names, no attribute is repeated, all characters are those of XML that it leaves alone, and no piece of text is empty or touches another |
| XmlReader.DocumentRoundTrip | include/gcm/xml/writer.h:46-59 | a document is the declaration, written out, followed by text that reads back as the tree, and as nothing more, if and only if the tree is writable |

## Left out

- JsonExact.RoundTripsExactly: doubles are outside the domain, because six printed digits and `stod` do not give them back; an array that holds a null pointer is, because the program follows it when printing.
- JsonTheorems.ParseReadsText: doubles are outside the domain, because six printed digits and `stod` do not give them back; a double is carried by its spelling.
- Builder.TreeBuilder.Receive: `stod` raises for a number too great or too small for a double as the GNU C library on x86-64 has it; other libraries differ on the small ones.
- JsonParse.ParseText: the actions are replayed when the match is over instead of during it; the result, the exception and the position are those of the program.
- ValidatorParams.SecondValidation: for distinct field names; ValidatorAgain.AgainExactly says which fields may repeat another one's name.
- XmlReader.TreeRoundTrip: indented output and comments are left out.
- JsonBatch.SplitBody: the lookup of id, method and params in each object and the queueing of the call are left out.
- Json.ToString: an array that holds a null pointer is printed as if it held null; the program dereferences it.
- Json.GetString: characters stand for bytes, and `isprint` is that of the "C" locale.
- JsonGrammar.JsonTerminates: the grammar's local variables are slots assigned once, so that rules stay short; a reference to such a slot does what the copied rule does.
- Engine.Matcher.Match: an extractor is given positions, not iterators, and its callable is a number; what it does comes with the trace.
- Validator.Check: a default value is copied, whereas the program stores the shared pointer, so that filling in a defaulted object also changes the default.
- Validator.CheckFields: values are passed and returned instead of being changed through references.
- PoolKeeper.NoLostWakeup: the pool before `stop()`; the counter pairs at the start of a worker and the keeper's two reads are one step each, and `state` and `quit` are atomic.
- PoolKeeper.ListIsBounded: a machine with more than 2^31 counted workers or 2^63 list entries is not considered.
- PoolKeeper.NeverOverkills: for min_spare up to 2^31; PoolBound.NeverOverkillsExactly has the exact condition.
- PoolSafety.StepKeepsLedger: a task that throws ends like one that returns; logging is left out.
- PoolObject.ThreadPool.KillSpares: the method as it runs when no other thread makes a step in between; PoolKeeper has the interleavings.
- PubSub.BroadcastOrder: one incarnation of a channel; a recreated channel starts its ids again, and ids do not wrap at 2^64. A timed poll's wait is any number of activity resets before the drain.
- Broker.Channel.Publish: sessions are values in the channel's map and are visited in any order; the shared handles are in PubSub.
- Broker.Channel.TestActiveSessions: the loop that steps on from an erased iterator is taken as "remove one and scan again".
- Broker.PubSubBroker.Clean: the clock stands still during one sweep.
- HttpHeaders.FieldsRun: the request line, the response side and reading up to the empty line are not part of this model.
- XmlWriter.Element.AddText: text of type std::string; other types, `const char *` among them, are streamed without escaping.
- The configuration parser repeats the JSON builder and has no printer; its includes need the file system.
- Promise and wait_all: their waits have no predicate under the notifier's lock, so only a thin claim would be left.
- Stopping the pool while the keeper may still add workers is outside the step model.
- Sockets, the accept loop, loading of modules, the daemon, files and logging are system calls and plumbing.
- Help texts, HTTP version comparison and status messages would only add easy members.
