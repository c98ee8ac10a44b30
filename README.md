# neure matching engine, modelled in Dafny

neure is a matcher-combinator library. It has no backtracking. It moves a cursor (`RegexCtx`)
over a byte or UTF-8 text buffer, and every matcher returns a `Span { beg, len }` or an
error. This project models the live regex side of the engine:

- the cursor and its offset guard (`CtxGuard`);
- spans and the capture stores (`VecStorer`, `ArrayStorer`);
- span-indexed slicing and the span iterators;
- the unit predicates (`Neu`: literals, sets, ranges, `And`/`Or`/`Not`, `Always`/`Never`,
  ASCII classes, `Word`, `Wild`, `Digit` and the stateful `Prefix`);
- the unit quantifiers (`Once`, `Many1`, `Opt`, `Many0`, `Between`, `Times`);
- the leaf matchers and the combinators;
- the value mappers of `src/map.rs`.

How the model is laid out:

- **Data.** Data is a sequence of units: bytes (`Mode.Bytes`) or code points (`Mode.Chars`).
  A code point is one to four bytes wide. Offsets and span lengths are byte offsets,
  as in the source.
- **Specification.** Matchers form the datatype `Regexes.Regex`. The function
  `Regexes.Match(re, src, off)` says what `try_parse` returns and where it leaves the
  cursor. For the unbounded loops that spin for ever it says `Diverge`.
- **Interpreter.** `Engine.TryMat` and one method per combinator run on the `RegexCtx` class
  through `CtxGuard`. Each is proved to produce exactly what `Match` specifies.
- **Unit quantifiers.** `Units.UnitMatch` specifies them. The methods `Units.ParseOnce`,
  `ParseOpt`, `ParseMany` and `ParseCounted` run the source's loops and are proved against
  `UnitMatch`.
- **Unit predicates.** `Neus.Step(n, x)` gives the verdict and the predicate's next state.
  Only `Prefix` has state. The class `Neus.PrefixCell` models its `Cell` fields being
  updated in place.
- **Caller-supplied closures.** Conditions, `Branch` tests, mapper functions and `Func`
  predicates are Dafny function values that the model never looks inside.

Where the documentation and the code disagree, the model follows the code:

- `Between::<M, N>` is documented as taking `[M, N)` units. Its loop `while cnt < N` takes
  up to N, so `Limit(Between(m, n))` is `Some(n)`.
- `ArrayStorer::spans` is documented to return None for a group that holds no span. The
  code returns None only for a missing group or when N is 0. `Storers.ArrayStorer.Spans`
  states the code's behaviour.

Ten places where the code does not do what it evidently intends are listed under
"Findings". Each has two members: one models the code as written, with an input that shows
the difference, and the other the corrected behaviour, which the rest of the model uses.
- Four are in the span merge, `CRange::is_empty`, `CRange::clone_from` and the `size_hint`
  of `IteratorBySpan`. Their as-written and corrected versions sit side by side in
  `Spans`, `Ranges` and `Iters`.
- Six are in the matchers: `Repeat2`, `Separate2`, `Separate` with `skip` false,
  `PairSlice`, `LongestTokenMatch`, and the sequences `Then`, `Suffix`, `Prefix`,
  `Enclose` and `SepOnce`, which do not rewind on failure. The rewind is documented for
  `Then` (src/ctor/then.rs:31 and 46-48), `Enclose` (src/ctor/enclose.rs:35) and `SepOnce`
  (src/ctor/sep.rs:41-42). The documentation of `Suffix` and `Prefix` says only that they
  fail when either part fails (src/ctor/affix.rs:20-31 and 225-238). For them the rewind is
  read from their ctor-mode `process_ret` (src/ctor/affix.rs:199 and 400), which rewinds on
  an error, and from the comment at src/ctor/collect.rs:201, which says the guard's
  `try_mat` is meant to set the reset flag when it fails.
  `Match` and the interpreter use the corrected behaviour, and the module `AsWritten`
  models the code as written.
- `IfThen` is documented without a rewind, so the model keeps the code's behaviour there:
  a failing left or right matcher leaves the cursor where it stopped.

## Model

| member | source | states |
|---|---|---|
| Spans.NewSpan | src/span.rs:26-43 | a new span starts at `beg`, ends at `beg + len`, and is empty exactly when `len` is 0 |
| Spans.Span.IsEmpty | src/span.rs:40-43 | true iff the span ends where it begins |
| Spans.AddAssign | src/span.rs:45-54 | corrected merge: the result keeps the receiver's start and ends where `other` ends; when `other` ends no earlier it covers the receiver |
| Spans.AddAssignChecked | src/span.rs:50-54 | the merge as written in checked `usize` arithmetic is defined exactly when `other` ends no earlier than the receiver, and then equals the corrected merge |
| Spans.AddAssignAbsorb | src/span.rs:45-54 | merging b and then c is the same as merging c directly |
| Spans.AddAssignUnderflowWitness | src/span.rs:52 | Span(0,5) merged with Span(1,1) underflows as written; corrected it gives Span(0,2) |
| Storers.EmptyGroups | src/span.rs:105-110 | exactly `capacity` groups, each empty |
| Storers.VecStorer.constructor | src/span.rs:105-110 | `new(capacity)` holds exactly `capacity` empty groups |
| Storers.VecStorer.NewWith | src/span.rs:112-114 | `new_with` holds exactly the given groups |
| Storers.VecStorer.WithCapacity | src/span.rs:120-123 | `with_capacity` replaces the groups by `capacity` empty ones |
| Storers.VecStorer.Len | src/span.rs:126-128 | the number of groups: every group holding a span, and every span found, has an id below it |
| Storers.VecStorer.IsEmpty | src/span.rs:130-132 | true iff there are no groups, and then no span is found |
| Storers.VecStorer.Reset | src/span.rs:137-140 | every group is emptied and the number of groups is kept |
| Storers.VecStorer.Contain | src/span.rs:148-150 | true iff group `id` exists and holds a span |
| Storers.VecStorer.AddSpan | src/span.rs:156-159 | the span is appended to group `id` only; `id` must exist |
| Storers.VecStorer.ClrSpan | src/span.rs:164-169 | group `id` is emptied when it exists; nothing else changes |
| Storers.VecStorer.SpanAt | src/span.rs:176-178 | the index-th span of group `id`, or None exactly when either index is out of range |
| Storers.VecStorer.Spans | src/span.rs:185-189 | the group's spans exactly when `contain(id)`; None for a missing or empty group |
| Storers.VecStorer.SpansIter | src/span.rs:194-196 | an iterator at the start of the group's spans exactly when `contain(id)` |
| Storers.VecStorer.Slice | src/span.rs:209-221 | the data covered by span [id][index], whose byte length is the span's length; None when the span is missing or unreadable |
| Storers.VecStorer.SliceIter | src/span.rs:226-231 | an `IteratorBySpan` over the group's spans and the given data, exactly when `contain(id)` |
| Storers.VecStorer.TryCap | src/span.rs:279-289 | runs the matcher as `Match` says; on success exactly the returned span is appended to group `id`; on failure no group changes |
| Storers.ArrayStorer.constructor | src/span.rs:317-321 | M x N slots, all empty |
| Storers.ArrayStorer.Len | src/span.rs:329-331 | M: every group holding a span, and every span found, has an id below it |
| Storers.ArrayStorer.Reset | src/span.rs:340-347 | every slot of every group is None afterwards |
| Storers.ArrayStorer.Contain | src/span.rs:355-360 | only an existing group can contain a span, and a group with a span in some slot does |
| Storers.ArrayStorer.ContainSomeSlot | src/span.rs:351-360 | true iff group `id` exists and some slot holds a span |
| Storers.ArrayStorer.SetSpan | src/span.rs:366-369 | slot [id][index] holds the span and no other slot changes |
| Storers.ArrayStorer.ClrSpan | src/span.rs:374-381 | every slot of group `id` becomes None and the other groups keep their slots |
| Storers.ArrayStorer.SpanAt | src/span.rs:388-392 | the span in slot [id][index], or None when out of range or empty |
| Storers.ArrayStorer.Spans | src/span.rs:399-407 | the row of group `id`, slot by slot, exactly when the group exists and N > 0 |
| Storers.ArrayStorer.Slice | src/span.rs:427-439 | the data covered by slot [id][index], of the span's byte length; None when the slot is empty or unreadable |
| Storers.ArrayStorer.TryCap | src/span.rs:505-520 | on success exactly slot [id][index] receives the returned span; on failure no slot changes |
| Cursor.Indices | src/ctx/regex.rs:365-367 | one (byte offset, unit) pair per unit |
| Cursor.Orig | src/ctx/regex.rs:361-363 | the suffix that starts at the unit where byte offset `o` falls, whose byte length is `len - o`; OutOfBound past the end or, on text, off a code-point boundary |
| Cursor.Peek | src/ctx/regex.rs:365-367 | succeeds exactly when `orig_at` does and pairs each unit with its offset |
| Cursor.RegexCtx.constructor | src/ctx/regex.rs:39-41 | a cursor at offset 0 over the given data |
| Cursor.RegexCtx.Reset | src/ctx/regex.rs:67-70 | offset 0, same data |
| Cursor.RegexCtx.ResetWith | src/ctx/regex.rs:61-65 | new data and offset 0 |
| Cursor.RegexCtx.SetOffset | src/ctx/regex.rs:343-347 | the offset becomes `o`; the data is kept |
| Cursor.RegexCtx.Inc | src/ctx/regex.rs:349-353 | the offset grows by exactly n; the data is kept |
| Cursor.RegexCtx.Dec | src/ctx/regex.rs:355-359 | the offset shrinks by exactly n, which must not exceed it |
| Cursor.RegexCtx.OrigAt | src/ctx/regex.rs:361-363 | `orig_at` on the cursor's data; OutOfBound past the end |
| Cursor.RegexCtx.PeekAt | src/ctx/regex.rs:365-367 | `peek_at` on the cursor's data |
| Cursor.RegexCtx.OrigSub | src/ctx/regex.rs:369-373 | exactly the units between byte offsets o and o + l, of byte length l, or OutOfBound |
| Cursor.RegexCtx.CloneAt | src/ctx/regex.rs:375-377 | a fresh cursor at offset 0 over the suffix from `o`, exactly when `orig_at(o)` succeeds |
| Cursor.LenIsDataLength | src/ctx/regex.rs:335-337 | `len` (`Cursor.RegexCtx.Len`) is the byte length of the data: one per unit on bytes, one to four per unit on text; the offset plays no part |
| Cursor.OrigAtBytes | src/ctx/regex.rs:361-363 | on bytes `orig_at(o)` is the plain suffix when o <= len, else OutOfBound |
| Cursor.OrigSubBytes | src/ctx/regex.rs:369-373 | on bytes `orig_sub(o, l)` is the plain slice when o + l <= len, else OutOfBound |
| Text.IndexAt | src/ctx/regex.rs:416-418 | the unit index at byte offset `o`, defined exactly at code-point boundaries |
| Text.Sub | src/ctx/regex.rs:424-428 | the units between two byte offsets, when both are boundaries |
| Text.Suffix | src/ctx/regex.rs:416-418 | the units from a boundary on |
| Text.ByteLenBounds | src/ctx/regex.rs:390-392 | every unit takes one to four bytes |
| Guard.CtxGuard.constructor | src/ctx/guard.rs:27-36 | records the current offset as `beg`, with the reset flag cleared |
| Guard.CtxGuard.RemainingLen | src/ctx/guard.rs:38-52 | `beg + remaining_len == len`, where `beg` (`Guard.CtxGuard.Beg`) is the entry offset the guard keeps and `end` (`Guard.CtxGuard.End`) is the cursor's current offset |
| Guard.CtxGuard.Inc | src/ctx/guard.rs:67-72 | returns Span(beg, len) and advances the cursor by exactly len |
| Guard.CtxGuard.Reset | src/ctx/guard.rs:98-101 | the cursor goes back to `beg` |
| Guard.CtxGuard.ProcessRet | src/ctx/guard.rs:103-108 | returns its argument unchanged and sets the flag iff it is an error |
| Guard.CtxGuard.NoteMatch | src/ctx/guard.rs:115-119 | a successful `try_mat` clears the flag; a failing one leaves it as it was |
| Guard.CtxGuard.Drop | src/ctx/guard.rs:122-130 | the cursor goes back to `beg` iff the flag is set, and is left alone otherwise |
| Iters.GetBySpan | src/iter/mod.rs:16-62 | the units between `beg` and `beg + len`, of byte length `len`; None past the end or, on text, off a boundary |
| Iters.GetBySpanBytes | src/iter/mod.rs:32-62 | on bytes, the plain slice [beg, beg + len) or None |
| Iters.GetBySpanPrefix | src/iter/mod.rs:16-22 | reading back the span of a whole prefix gives that prefix |
| Iters.IteratorBySpan.constructor | src/iter/span.rs:15-21 | starts at the first span |
| Iters.IteratorBySpan.Next | src/iter/span.rs:30-35 | yields `get_by_span(spans[cur])` in order, None past the end, and advances `cur` by one either way |
| Iters.IteratorBySpan.SizeHint | src/iter/span.rs:37-39 | the hint as written: the number of spans, however far the iterator has gone |
| Iters.SizeHintAsWritten | src/iter/span.rs:37-39 | always (`spans.len()`, Some(`spans.len()`)) |
| Iters.SizeHintRemaining | src/iter/span.rs:37-42 | the exact hint an `ExactSizeIterator` needs: zero exactly when `next` has nothing left |
| Iters.SizeHintStaleWitness | src/iter/span.rs:37-39 | after the only span has been read the as-written hint still says one |
| Iters.SpanIterator.constructor | src/iter/span.rs:51-54 | starts at the first span |
| Iters.SpanIterator.Next | src/iter/span.rs:59-68 | each span once, in order, then None without moving; the offset never passes the end |
| Iters.SpanIterator.Drain | src/iter/span.rs:59-68 | draining yields the remaining spans in order and ends at the end |
| Ranges.Contains | src/neu/range.rs:128-132 | no value below the start's lowest value is admitted |
| Ranges.ContainsInterval | src/neu/range.rs:128-132 | the values a range admits form an interval: every value from the start's lowest one up to an admitted value is admitted |
| Ranges.IsEmpty | src/neu/range.rs:76-95 | corrected `is_empty`: true iff the start's lowest value is beyond `usize::MAX` or not admitted by the end bound |
| Ranges.Default | src/neu/range.rs:17-24 | contains every value |
| Ranges.FromRange | src/neu/range.rs:181-185 | `a..b` contains x iff a <= x < b |
| Ranges.FromRangeFrom | src/neu/range.rs:187-191 | `a..` contains x iff a <= x |
| Ranges.FromRangeFull | src/neu/range.rs:193-197 | `..` contains everything |
| Ranges.FromRangeInclusive | src/neu/range.rs:199-204 | `a..=b` contains x iff a <= x <= b |
| Ranges.FromRangeTo | src/neu/range.rs:206-210 | `..b` contains x iff x < b |
| Ranges.FromRangeToInclusive | src/neu/range.rs:212-216 | `..=b` contains x iff x <= b |
| Ranges.FromInt | src/neu/range.rs:134-152 | an integer cast `as usize` becomes the one-value range v..=v |
| Ranges.IsEmptyCorrect | src/neu/range.rs:76-95 | corrected `is_empty` holds exactly when no `usize` lies within the bounds |
| Ranges.IsEmptyAsWritten | src/neu/range.rs:76-95 | `is_empty` as written agrees with the corrected one except at the bounds involving `usize::MAX` |
| Ranges.IsEmptyAsWrittenWitness | src/neu/range.rs:76-95 | `usize::MAX..` is called empty though it holds `usize::MAX`, and two empty ranges are called non-empty |
| Ranges.CloneFromAsWritten | src/neu/range.rs:99-113 | as written both bounds come from the start bound |
| Ranges.CloneFrom | src/neu/range.rs:99-113 | corrected: the clone contains exactly what the given range contains |
| Ranges.CloneFromWitness | src/neu/range.rs:107-111 | cloning 1..5 as written loses 2, which 1..5 contains |
| Neus.Step | src/neu/prefix.rs:89-106 | a predicate keeps its shape under a step; only `Prefix` nodes carry state |
| Neus.Connectives | src/neu/op_and.rs:142-147 | `And` accepts iff both sides do and leaves the right side untouched when the left refuses; `Or` iff either does, right untouched when the left accepts; `Not` iff its operand refuses |
| Neus.DeMorgan | src/neu/op_not.rs:103-108 | De Morgan's laws and double negation hold for the connectives |
| Neus.Classes | src/neu/units.rs:612-690 | `Always`/`Never` accept/refuse everything, `Wild` refuses only '\n', `Word` is a-z, A-Z, 0-9 and '_', `Digit(10)` the decimal digits, literals, sets and ranges their members |
| Neus.RadixDigits | src/neu/units.rs:463-467 | for a radix from 2 to 36 `digit(radix)` accepts exactly the ASCII letters and digits whose value is below the radix: decimal digits below it, the hexadecimal digits for 16, every letter and digit for 36 |
| Neus.MinLength | src/neu/op_and.rs:149-151 | at most one unit; `Always` and `Never` need none; the one unit of the other predicates is assumed (see "Left out") |
| Neus.MinLengthLaws | src/neu/op_or.rs:148-150 | `And` takes the larger side, `Or` the smaller, `Not` its operand's |
| Neus.StatelessStep | src/neu.rs:105-125 | a predicate without `Prefix` never changes state |
| Neus.Feed | src/neu/prefix.rs:89-106 | one verdict per unit fed |
| Neus.PrefixStaysFalse | src/neu/prefix.rs:89-91 | once `value` is false every later unit is refused and the state stays put |
| Neus.AllMatchCons | src/neu/prefix.rs:99-104 | the first m units all match iff the first does and the next m - 1 do |
| Neus.PrefixVerdicts | src/neu/prefix.rs:89-106 | `prefix_cnt(p, k, u)` accepts unit i < k iff units 0..i all match p, and unit i >= k iff the first k match p and unit i matches u |
| Neus.PrefixCnt | src/neu/prefix.rs:223-229 | a fresh prefix: value true and `count` prefix units to go |
| Neus.NewPrefix | src/neu/prefix.rs:156-162 | `prefix(p, u)` is `prefix_cnt(p, 1, u)` |
| Neus.PrefixCell.constructor | src/neu/prefix.rs:45-53 | value true and count n |
| Neus.PrefixCell.IsMatch | src/neu/prefix.rs:89-106 | verdict and new state as `Step`; count drops by at most one and never underflows; a false value refuses and changes nothing |
| Units.TimesLimit | src/neu/times.rs:426-434 | no limit iff the end is open; otherwise the largest count the end bound admits (one more is refused, and a positive limit is admitted), or 0 when it admits none |
| Units.TimesMinLength | src/neu/times.rs:436-440 | the bytes demanded up front are at most the least count the start admits, and none for a predicate of minimal length 0, so never more than an admitted count of units takes |
| Units.Run | src/neu/times.rs:229-242 | the walk stops within the data and never takes more than the limit |
| Units.RunMaximal | src/neu/once.rs:349-357 | every unit before the stop was taken; without an error the walk stops at the limit, at the end or at a refused unit; a condition error stops it at an accepted unit |
| Units.CalcLengthIsByteLen | src/neu.rs:713-717 | the `length_of` arithmetic (`Units.LengthOf`, from `start` to the next unit's offset or to the end) gives the byte length of the units taken |
| Units.UnitMatch | src/neu/times.rs:218-250 | a success spans from the entry offset to the new cursor; a failure leaves the cursor in place |
| Units.Finish | src/neu/times.rs:243-247 | the cursor moves only on success, by exactly the span's length |
| Units.RunFirst | src/neu/once.rs:172-174 | the one-unit walk takes the first unit iff the predicate and then the condition accept it; a condition error propagates |
| Units.UnitMatchCovers | src/neu/once.rs:359-362 | on success the span's length is the byte length of the units taken |
| Units.OptionalNeverFail | src/neu/opt.rs:191-206 | `Opt` and `Many0` fail only when the condition raises an error |
| Units.OnceFirstUnit | src/neu/once.rs:168-180 | `Once` and `Opt` move iff a first unit exists and the predicate and then the condition accept it, and then by its width |
| Units.PrecheckSound | src/neu/times.rs:224-228 | the length pre-check of `Between` and `Times` only refuses inputs the walk could not accept |
| Units.Walk | src/neu/times.rs:229-242 | the loop computes exactly `Run` and remembers the first unit not taken |
| Units.SpanLength | src/neu.rs:713-717 | the span length is the `length_of` arithmetic, and stays within the data |
| Units.MatchFirst | src/neu/once.rs:166-180 | the value side of `Once`/`Opt` equals `UnitMatch` |
| Units.MatchMany | src/neu/once.rs:341-366 | the value side of `Many1`/`Many0` equals `UnitMatch` |
| Units.MatchCounted | src/neu/times.rs:218-250 | the value side of `Between`/`Times` equals `UnitMatch` |
| Units.CountedWalk | src/neu/times.rs:229-247 | the bounded walk then the lower-bound check equal `Finish` |
| Units.Guarded | src/ctx/guard.rs:67-130 | on success the guard advances over the span; on failure the cursor is back at the entry offset |
| Units.ParseOnce | src/neu/once.rs:166-180 | `Once::try_parse` returns and moves exactly as `UnitMatch(Once)` |
| Units.ParseOpt | src/neu/opt.rs:191-206 | `Opt::try_parse` returns and moves exactly as `UnitMatch(Opt)` |
| Units.ParseMany | src/neu/opt.rs:382-405 | `Many0`/`Many1` `try_parse` return and move exactly as `UnitMatch` |
| Units.ParseCounted | src/neu/times.rs:418-465 | `Between`/`Times` `try_parse` return and move exactly as `UnitMatch` |
| Units.ParseUnit | src/neu/times.rs:211-250 | any quantifier returns and moves exactly as `UnitMatch` |
| Regexes.IsContain | src/ctor/repeat.rs:197-203 | the loop may try another item iff the end bound admits count + 1 |
| Regexes.GuessCapacity | src/ctor/repeat.rs:142-149 | the start bound when it is at least `val`, else `val` |
| Regexes.RepeatLimit | src/ctor/repeat.rs:197-203 | `is_contain(cnt)` holds iff cnt is below the derived limit |
| Regexes.Match | src/regex.rs:64-87 | every matcher is sound: the cursor stays between the entry offset and the end, and a success starts at the entry offset and ends no later than the cursor |
| Regexes.LitMatch | src/regex/literal.rs:76-86 | a literal's success spans exactly its byte length; too little data or a mismatch fails |
| Regexes.AssertMatch | src/regex/assert.rs:77-89 | `Assert` is sound |
| Regexes.ThenMatch | src/ctor/then.rs:222-231 | corrected: `Then`, `Suffix` and `Prefix` are sound, and a failure leaves the cursor at the entry offset, as src/ctor/then.rs:31 and 46-48 document for `Then`; for `Suffix` and `Prefix` the rewind follows their ctor-mode `process_ret` (src/ctor/affix.rs:199 and 400) |
| Regexes.Then3Match | src/ctor/enclose.rs:234-252 | corrected: `Enclose` and `SepOnce` are sound, and a failure leaves the cursor at the entry offset, as src/ctor/enclose.rs:33-35 and src/ctor/sep.rs:40-42 document |
| Regexes.IfThenMatch | src/ctor/then.rs:442-454 | `IfThen` is sound; what it returns is stated by `Laws.IfThenLeftStops`, `IfThenTestFails`, `IfThenRightStops` and `IfThenAll` |
| Regexes.OrMatch | src/ctor/or.rs:232-246 | `Or` is sound |
| Regexes.LongestMatch | src/ctor/longest.rs:209-226 | corrected `LongestTokenMatch` is sound |
| Regexes.OptionMatch | src/ctor/opt.rs:177-190 | `OptionPat` is sound |
| Regexes.BranchMatch | src/ctor/branch.rs:249-265 | `Branch` is sound; what it returns is stated by `Laws.BranchTestError`, `BranchSelects` and `BranchFailRewinds` |
| Regexes.RepLoop | src/ctor/repeat.rs:247-271 | the repetition loop stops within the data with a span from the entry offset, never exceeding the limit |
| Regexes.RepLoopStops | src/ctor/repeat.rs:253-260 | the loop stops at the limit, at a failing item or on a success in place with no limit |
| Regexes.RepLoopGoesOn | src/ctor/repeat.rs:253-260 | after a counted success the loop goes on from the new cursor with the span merged |
| Regexes.SepLoop | src/ctor/sep.rs:529-561 | the separated loop stops within the data with a span from the entry offset, never exceeding the limit |
| Regexes.SepItemFails | src/ctor/sep.rs:536 | a failing item ends the loop with nothing more counted |
| Regexes.SepSeparatorFails | src/ctor/sep.rs:537-548 | a failing separator ends the loop; the item counts iff `skip` |
| Regexes.SepSeparatorMatches | src/ctor/sep.rs:537-546 | item and separator both matching count the item, merge both spans and go on |
| Regexes.ChoiceLoop | src/ctor/array.rs:135-149 | ordered choice is sound |
| Regexes.ChoiceLoopEnd | src/ctor/array.rs:147 | with no alternative left the choice fails with its own error at the entry offset |
| Regexes.ChoiceLoopSkip | src/ctor/array.rs:140-145 | a failing alternative passes on to the next from the entry offset |
| Regexes.ChoiceLoopTake | src/ctor/array.rs:140-145 | the first alternative that does not fail decides the outcome |
| Regexes.Parse | src/regex.rs:64-66 | `parse` is true iff `try_parse` succeeds |
| Regexes.PolicyMatch | src/ctx/regex.rs:453-464 | `try_mat_policy` keeps the cursor between the entry offset and the end |
| Regexes.PolicyTail | src/ctx/regex.rs:458-463 | a success returns the pattern's span |
| Engine.TryMat | src/ctx/regex.rs:440-448 | running any matcher on the cursor returns and moves exactly as `Match` |
| Engine.TryLit | src/regex/literal.rs:76-86 | the literal returns and moves exactly as `LitMatch` |
| Engine.TryConsume | src/regex/consume.rs:76-88 | succeeds iff n bytes remain, with Span(start, n) and the cursor n further; otherwise Err(Consume) in place |
| Engine.TryConsumeAll | src/regex/consume.rs:174-183 | always succeeds with the rest of the data and leaves the cursor at the end |
| Engine.TryAnchorStart | src/regex/anchor.rs:44-56 | a zero-width success iff the offset is 0, else Err(AnchorStart); the cursor does not move |
| Engine.TryAnchorEnd | src/regex/anchor.rs:89-101 | a zero-width success iff the offset is the length, else Err(AnchorEnd); the cursor does not move |
| Engine.TryAssert | src/regex/assert.rs:77-89 | `Assert` as `AssertMatch`: succeeds iff the inner outcome is the expected one, and always rewinds |
| Engine.TryThen | src/ctor/then.rs:222-231 | as the corrected `ThenMatch`: an error goes through the guard's `process_ret`, so dropping the guard restores the entry offset (also `Suffix` at src/ctor/affix.rs:210-222 and `Prefix` at src/ctor/affix.rs:411-424) |
| Engine.TryThen3 | src/ctor/enclose.rs:234-252 | as the corrected `Then3Match`, an error rewinding through `process_ret` (also `SepOnce` at src/ctor/sep.rs:238-247) |
| Engine.TryIfThen | src/ctor/then.rs:442-454 | as `IfThenMatch` |
| Engine.IfThenLeftFails | src/ctor/then.rs:447 | a failing left matcher ends `IfThen` with its error, where it stopped |
| Engine.IfThenTested | src/ctor/then.rs:449-452 | after a successful left matcher, a failing test gives the left span where the test stopped, and a passing one leaves the outcome to the right matcher |
| Engine.TryOr | src/ctor/or.rs:232-246 | as `OrMatch` |
| Engine.TryLongest | src/ctor/longest.rs:209-226 | as the corrected `LongestMatch` |
| Engine.TryOption | src/ctor/opt.rs:177-190 | as `OptionMatch` |
| Engine.TryBranch | src/ctor/branch.rs:249-265 | as `BranchMatch` |
| Engine.Repetition | src/ctor/repeat.rs:247-260 | the loop ends exactly where `RepLoop` stops, with its count and span |
| Engine.TryRepeat | src/ctor/repeat.rs:247-271 | `Repeat` as `Match` |
| Engine.TryRepeat2 | src/ctor/repeat2.rs:195-220 | corrected `Repeat2` as `Match` |
| Engine.TryCollect | src/ctor/collect.rs:196-217 | `Collect` as `Match` |
| Engine.Separation | src/ctor/sep.rs:529-549 | the corrected separated loop ends exactly where `SepLoop` stops |
| Engine.SepRound | src/ctor/sep.rs:535-549 | one round: either the loop stops as `SepLoop` says, or it goes on with one more item and progress |
| Engine.SepAfterItem | src/ctor/sep.rs:537-548 | the separator half of a round, as `SepLoop` |
| Engine.TrySeparate | src/ctor/sep.rs:529-561 | `Separate` and `SepCollect` (src/ctor/sep.rs:1117-1148) as `Match` |
| Engine.TrySeparate2 | src/ctor/sep.rs:809-844 | corrected `Separate2` as `Match` |
| Engine.TryChoice | src/ctor/array.rs:135-149 | `Array`, `PairArray` (src/ctor/array.rs:242-256), `Vector` and `PairVector` (src/ctor/vec.rs:140-154, 294-308) as `ChoiceLoop` |
| Engine.TrySlice | src/ctor/slice.rs:147-161 | `Slice` and corrected `PairSlice` as `ChoiceLoop` |
| Engine.IsMatch | src/regex.rs:64-66 | `parse` returns exactly `Parse` |
| Engine.TryMatPolicy | src/ctx/regex.rs:453-464 | before, pattern, after, exactly as `PolicyMatch` |
| Engine.TryPolicyTail | src/ctx/regex.rs:458-463 | pattern then after, exactly as `PolicyTail` |
| Laws.BoundedReturns | src/ctor/repeat.rs:197-203 | a matcher whose every loop has an upper bound always returns |
| Laws.BoundedNodeReturns | src/ctor/then.rs:222-231 | the loop-free combinators return when their parts do |
| Laws.SeqReturns | src/ctor/then.rs:222-231 | two bounded matchers in a row return |
| Laws.RepLoopReturns | src/ctor/repeat.rs:253-260 | a repetition loop with an upper bound over a bounded item always stops |
| Laws.SepLoopReturns | src/ctor/sep.rs:816-833 | a separated loop with an upper bound over bounded parts always stops |
| Laws.ChoiceLoopReturns | src/ctor/array.rs:140-147 | an ordered choice over bounded alternatives always returns |
| Laws.RepLoopProgress | src/ctor/collect.rs:203-206 | an open repetition whose item consumes whenever it succeeds stops |
| Laws.CollectReturns | src/ctor/collect.rs:203-206 | `Collect` returns when its item always consumes on success |
| Laws.CollectSpins | src/ctor/collect.rs:203-206 | `Collect` over an item that succeeds in place never returns |
| Laws.ChoiceFirstSuccess | src/ctor/array.rs:140-146 | the choice is the outcome of the first alternative that does not fail |
| Laws.ChoiceLoopFirst | src/ctor/array.rs:140-146 | from any position, the loop's outcome is that of the first alternative that does not fail |
| Laws.ChoiceAllFail | src/ctor/array.rs:137-148 | when all fail, the choice's own error at the entry offset |
| Laws.ChoiceLoopAllFail | src/ctor/array.rs:137-148 | when every remaining alternative fails, the loop fails with its own error at the entry offset |
| Laws.ChoiceSuccessWitness | src/ctor/vec.rs:145-151 | conversely, a success is some alternative's success, every earlier one having failed |
| Laws.ChoiceLoopWitness | src/ctor/vec.rs:145-151 | a successful loop's outcome is some remaining alternative's, every one before it having failed |
| Laws.ChoiceLoopFailRewinds | src/ctor/slice.rs:149-157 | a failed choice leaves the cursor at the entry offset |
| Laws.OrIsChoice | src/ctor/or.rs:232-246 | `Or` agrees with a two-element ordered choice, except that it reports the right alternative's error |
| Laws.PairChoiceLeft | src/ctor/or.rs:232-246 | when the left alternative does not fail, both `Or` and the two-element choice end exactly as the left one ended |
| Laws.PairChoiceRight | src/ctor/or.rs:232-246 | after a failing left alternative, a right one that does not fail decides both `Or` and the two-element choice |
| Laws.PairChoiceNone | src/ctor/or.rs:232-246 | when both alternatives fail, the choice fails with its own error and `Or` with the right one's, both at the entry offset |
| Laws.OrSucceeds | src/ctor/or.rs:236-242 | `Or` succeeds iff either side does; a failed `Or` leaves the cursor at the start |
| Laws.LongestIsLongest | src/ctor/longest.rs:215-225 | corrected longest match succeeds iff a side does, ends at least as far as every successful side, prefers left on ties and rewinds on failure |
| Laws.AssertZeroWidth | src/regex/assert.rs:81-87 | `Assert` never moves the cursor and succeeds with Span(off, 0) iff the inner outcome is `value` |
| Laws.OptionNeverFails | src/ctor/opt.rs:182-187 | `OptionPat` never fails: the inner span, or Span(off, 0) in place |
| Laws.IfThenLeftStops | src/ctor/then.rs:447 | a left matcher that does not succeed ends `IfThen` as it ended |
| Laws.IfThenTestFails | src/ctor/then.rs:449-453 | a failing test is no error: the left span, the right matcher not run, the cursor where the test stopped |
| Laws.IfThenRightStops | src/ctor/then.rs:449-451 | after a passing test the right matcher is required: when it does not succeed `IfThen` ends as it ended |
| Laws.IfThenAll | src/ctor/then.rs:447-453 | left, test and right succeeding give the merged span, from the entry offset to the right end |
| Laws.BranchTestError | src/ctor/branch.rs:254 | an error from the test is returned with the cursor unmoved |
| Laws.BranchSelects | src/ctor/branch.rs:255-261 | true runs `pat` and false `other`; a success is that alternative's outcome, a failure its error back at the entry offset |
| Laws.BranchIgnoresOther | src/ctor/branch.rs:255-259 | the alternative the test does not select has no effect on the outcome |
| Laws.BranchFailRewinds | src/ctor/branch.rs:254-262 | a failing `Branch` leaves the cursor at the entry offset |
| Laws.ThenLeftStops | src/ctor/then.rs:227 | a left step that does not succeed ends the sequence as it ended, a failure back at the entry offset |
| Laws.ThenRightStops | src/ctor/then.rs:229 | after a successful left step, a right step that does not succeed ends the sequence as it ended, a failure back at the entry offset |
| Laws.ThenBoth | src/ctor/then.rs:227-230 | two successful steps give the merged span, with the cursor where the right step ended |
| Laws.Then3First | src/ctor/enclose.rs:239 | an opening step that does not succeed ends `Enclose` as it ended, a failure back at the entry offset |
| Laws.Then3Second | src/ctor/enclose.rs:241-245 | a middle step that is the first not to succeed ends `Enclose` as it ended, a failure back at the entry offset |
| Laws.Then3Third | src/ctor/enclose.rs:246-250 | a closing step that is the first not to succeed ends `Enclose` as it ended, a failure back at the entry offset |
| Laws.Then3All | src/ctor/enclose.rs:239-251 | three successful steps give the merged span, with the cursor where the last one ended |
| Laws.SequenceFailRewinds | src/ctor/then.rs:46-48 | a failed `Then`, `Suffix`, `Prefix`, `Enclose` or `SepOnce` leaves the cursor at the entry offset |
| Laws.ThenAssoc | src/ctor/then.rs:227-230 | sequencing is associative in outcome, span and cursor |
| Laws.EncloseIsThen | src/ctor/enclose.rs:239-251 | `Enclose` is open, then pat, then close |
| Laws.ThenSpan | src/ctor/then.rs:227-230 | a successful sequence spans from the entry offset to the right match's end |
| Laws.RepLoopOwner | src/ctor/repeat.rs:247-260 | the repetition loop does not depend on which node runs it |
| Laws.Repeat2IsRepeat | src/ctor/repeat2.rs:195-220 | corrected `Repeat2::<M, N>` behaves as `Repeat` over `M..=N`, with its own error |
| Laws.CollectIsRepeat | src/ctor/collect.rs:196-217 | `Collect` with minimum `min` behaves as `Repeat` over `min..`, with its own error |
| Laws.RepetitionFailRewinds | src/ctor/repeat.rs:261-268 | a failing repetition reports its error with the cursor at the entry offset |
| Laws.CollectZeroNeverFails | src/ctor/collect.rs:203-211 | with no minimum an open repetition that returns succeeds |
| Laws.LitClean | src/regex/literal.rs:76-86 | a literal ends at its span on success and stays put on failure |
| Laws.SeparateClean | src/ctor/sep.rs:529-561 | corrected `Separate` over clean parts is clean: its span ends where the cursor is |
| Laws.SepLoopClean | src/ctor/sep.rs:535-549 | over clean parts the separated loop stops with its span ending at the cursor |
| Laws.SepCleanRound | src/ctor/sep.rs:535-549 | one round of the separated loop keeps the span ending at the cursor |
| Laws.LitBytes | src/regex/literal.rs:76-86 | on bytes a literal matches iff the data from the cursor starts with it |
| Maps.FuncMapper | src/map.rs:34-41 | always Ok(f(v)) |
| Maps.Select0 | src/map.rs:57-61 | never fails |
| Maps.Select1 | src/map.rs:77-81 | never fails |
| Maps.SelectRecompose | src/map.rs:57-81 | the two projections give the pair back |
| Maps.SelectEq | src/map.rs:97-108 | the pair iff its parts are equal, else Err(SelectEq) |
| Maps.SelectNeq | src/map.rs:124-135 | the pair iff its parts differ, else Err(SelectNeq) |
| Maps.SelectEqNeqPartition | src/map.rs:97-135 | exactly one of the two accepts any pair |
| Maps.Bounded | src/map.rs:645-656 | v iff min <= v < max, else Err(SelectEq) |
| Maps.BoundedEmpty | src/map.rs:645-656 | with max <= min nothing is accepted |
| Maps.WithDefault | src/map.rs:706-718 | never fails: the mapper's value, or the default when it fails |
| Maps.WithDefaultBounded | src/map.rs:706-718 | a bounded check with a default gives v in range and the default otherwise |
| Maps.Size | src/map.rs:490-536 | every integer type is 1, 2, 4, 8 or 16 bytes |
| Maps.Pow256 | src/map.rs:490-536 | positive |
| Maps.LeValue | src/map.rs:490-536 | below 256 to the number of bytes |
| Maps.BeValue | src/map.rs:490-536 | below 256 to the number of bytes |
| Maps.FromBits | src/map.rs:490-536 | a bit pattern read as the type is a value of the type, congruent to the pattern |
| Maps.ToBits | src/map.rs:490-536 | the inverse of `FromBits` |
| Maps.FromLeBytes | src/map.rs:490-536 | succeeds iff at least `size_of` bytes are given, with a value of the type; else Err(FromLeBytes) |
| Maps.FromBeBytes | src/map.rs:490-536 | succeeds iff at least `size_of` bytes are given, with a value of the type; else Err(FromBeBytes) |
| Maps.FromNeBytes | src/map.rs:490-536 | the platform's byte order; else Err(FromNeBytes) |
| Maps.LeBytes | src/map.rs:490-536 | n bytes whose little-endian value is u |
| Maps.ToLeBytes | src/map.rs:490-536 | exactly `size_of` bytes |
| Maps.LeBytesOfValue | src/map.rs:490-536 | bytes are determined by their value |
| Maps.LeRoundTrip | src/map.rs:490-536 | decoding `to_le_bytes(v)` followed by anything gives v back |
| Maps.LeRoundTripBytes | src/map.rs:490-536 | encoding the decoded value gives back the first `size_of` bytes |
| Maps.LeValueSnoc | src/map.rs:490-536 | appending a most significant byte adds its weight |
| Maps.BeIsLeReversed | src/map.rs:490-536 | big-endian is little-endian of the reversed bytes |
| Maps.FromBeIsFromLeReversed | src/map.rs:490-536 | big-endian decoding is little-endian decoding of the reversed first chunk |
| Maps.FromBytesDocExamples | src/map.rs:590-615 | [1, 2, 3, 4] as i32 is 0x04030201 little-endian and 0x01020304 big-endian; three bytes are too few |
| Maps.FromBytesSign | src/map.rs:490-536 | 0xff is -1 as i8 and 255 as u8 |
| AsWritten.LitByte | src/regex/literal.rs:76-86 | on bytes a one-byte literal, string or byte slice, matches the byte at the cursor |
| AsWritten.LitByteMiss | src/regex/literal.rs:76-86 | it fails in place at the end or on another byte, with `LitString` for a string literal and `LitSlice` for a byte slice |
| AsWritten.Repeat2AsWrittenWitness | src/ctor/repeat2.rs:202-217 | as written `Repeat2<0, 1>` fails whenever the item matches twice; corrected it takes the first match |
| AsWritten.MatchRepeat2 | src/ctor/repeat2.rs:195-220 | corrected `Repeat2` is its loop bounded by N, then the count check |
| AsWritten.RepLoopTwice | src/ctor/repeat2.rs:202-208 | a loop bounded by 2 over an item matching twice takes both |
| AsWritten.Repeat2AsWrittenOnAa | src/ctor/repeat2.rs:202-217 | `Repeat2<0, 1>` of "a" on "aa": Err as written, Span(0, 1) corrected |
| AsWritten.SepLoopAsWritten | src/ctor/sep.rs:535-549 | the loop as written stays within the data and keeps the span from the entry offset |
| AsWritten.SeparateAsWritten | src/ctor/sep.rs:529-561 | `Separate` as written keeps the cursor within the data |
| AsWritten.Separate2AsWritten | src/ctor/sep.rs:809-844 | `Separate2` as written keeps the cursor within the data |
| AsWritten.Repeat2AsWritten | src/ctor/repeat2.rs:195-220 | `Repeat2` as written (loop while `cnt <= N`, then the `M..=N` check) keeps the cursor within the data |
| AsWritten.SeparateNoSkipWitness | src/ctor/sep.rs:536-548 | with `skip` off and a failing separator, as written the cursor stays after an item the span does not cover; corrected it does not |
| AsWritten.SeparateNoSkipOnA | src/ctor/sep.rs:536-548 | item "a" and separator "," on "a" meet those conditions |
| AsWritten.Separate2AsWrittenWitness | src/ctor/sep.rs:809-844 | `Separate2<0, 1>` as written takes two items; corrected it takes one |
| AsWritten.Separate2AsWrittenTakesBoth | src/ctor/sep.rs:816-833 | as written, `Separate2<0, 1>` takes item, separator and item |
| AsWritten.Separate2BoundedTakesOne | src/ctor/sep.rs:816-833 | bounded by N, it takes one item and its separator |
| AsWritten.Separate2AsWrittenOnACommaA | src/ctor/sep.rs:809-844 | "a" and "," on "a,a" meet those conditions |
| AsWritten.PairSliceLoopAsWritten | src/ctor/slice.rs:304-317 | the loop as written keeps the cursor within the data |
| AsWritten.PairSliceAsWritten | src/ctor/slice.rs:304-317 | `PairSlice` as written keeps the cursor within the data |
| AsWritten.PairSliceAsWrittenWitness | src/ctor/slice.rs:309-315 | as written a later alternative overrides an earlier success, or the cursor is reset after it; corrected the first success wins |
| AsWritten.PairSliceAsWrittenOnAbAndA | src/ctor/slice.rs:309-315 | "a" and "b" on "ab" and on "a" meet those conditions |
| AsWritten.PairSliceFirstSuccess | src/ctor/slice.rs:304-317 | corrected `PairSlice` is the first alternative that does not fail |
| AsWritten.PairSliceAllFail | src/ctor/slice.rs:304-317 | when all fail, Err(PairSlice) at the entry offset |
| AsWritten.LongestAsWritten | src/ctor/longest.rs:209-226 | as written the cursor stays within the data |
| AsWritten.LongestAsWrittenWitness | src/ctor/longest.rs:218-222 | `fail` against `empty`: the failure wins as written, the empty success corrected |
| AsWritten.ThenAsWritten | src/ctor/then.rs:222-231 | `Then` (and `Suffix`, `Prefix`) as written: a failure leaves the cursor where the failing step stopped, within the data |
| AsWritten.Then3AsWritten | src/ctor/enclose.rs:234-252 | `Enclose` and `SepOnce` as written: the same, over three steps |
| AsWritten.ThenAsWrittenAgrees | src/ctx/guard.rs:115-119 | the corrected `Then`, `Suffix` and `Prefix` differ from the code as written only in moving a failure back to the entry offset |
| AsWritten.Then3AsWrittenAgrees | src/ctor/sep.rs:238-247 | the same for `Enclose` and `SepOnce` |
| AsWritten.ThenAsWrittenOnAc | src/ctor/then.rs:227-229 | `"a".then("b")` on "ac" fails with `LitString`, the cursor at 1 as written and at 0 corrected |
| AsWritten.SepOnceAsWrittenOnACommaC | src/ctor/sep.rs:243-245 | `"a".sep_once(",", "b")` on "a,c" fails with `LitString`, the cursor at 2 as written and at 0 corrected |
| DocExamples.Greedy | src/neu/times.rs:229-247 | on bytes, a stateless quantifier takes the longest accepted run up to its limit and succeeds iff the count is enough |
| DocExamples.GreedyFeed | src/neu/once.rs:341-366 | `Many1`/`Many0` with a stateful predicate take the run the fed verdicts accept |
| DocExamples.OnceOnLetters | src/neu/once.rs:46-51 | `('a'..'g').once()` on "aabbccgg" gives Span(0, 1) |
| DocExamples.Many1OnLetters | src/neu/once.rs:221-225 | `.many1()` gives Span(0, 6) |
| DocExamples.OptOnLetters | src/neu/opt.rs:56-61 | `.opt()` gives Span(0, 1) |
| DocExamples.Many0OnLetters | src/neu/opt.rs:247-252 | `.many0()` gives Span(0, 6) |
| DocExamples.BetweenOnLetters | src/neu/times.rs:62-66 | `between::<1, 6>` gives Span(0, 6) |
| DocExamples.TimesOnLetters | src/neu/times.rs:296-300 | `times(1..7)` gives Span(0, 6) |
| DocExamples.CountThreeOnAdfwgh | src/neu/range.rs:227-233 | `range('a'..='f').count::<3>()` gives Span(0, 3) on "adfwgh" |
| DocExamples.CountThreeOnWgh | src/neu/range.rs:227-233 | and then fails |
| DocExamples.AlwaysCountSix | src/neu/bool.rs:62-65 | `always().count::<6>()` gives Span(0, 6) |
| DocExamples.NeverCountSix | src/neu/bool.rs:126-129 | `never().count::<6>()` fails |
| DocExamples.NotDigitOnCc9 | src/neu/op_not.rs:18-26 | `digit(10).not().between::<1, 3>()` gives Span(0, 2) on "cc9" |
| DocExamples.NotDigitOnC99 | src/neu/op_not.rs:18-26 | and Span(0, 1) on "c99" |
| DocExamples.NotUpperTimesSix | src/neu/op_not.rs:125-130 | `not(is_ascii_uppercase).times(6..)` gives Span(0, 7) |
| DocExamples.BigDigitOn899 | src/neu/op_and.rs:18-27 | `digit(10).and(> '7').between::<1, 3>()` gives Span(0, 3) on "899" |
| DocExamples.BigDigitOn99c | src/neu/op_and.rs:18-27 | and Span(0, 2) on "99c" |
| DocExamples.LowerTimesSix | src/neu/op_and.rs:164-172 | the lower-case `and` with `times(6..)` gives Span(0, 7) |
| DocExamples.AOrBOnAbc | src/neu/op_or.rs:18-26 | `'a'.or('b').between::<1, 2>()` gives Span(0, 2) on "abc" |
| DocExamples.WordMany1 | src/neu/units.rs:702-706 | `word().many1()` gives Span(0, 12) |
| DocExamples.WordMany1Again | src/neu/units.rs:702-706 | and then fails |
| DocExamples.WildCountTwo | src/neu/units.rs:629-634 | `wild().count::<2>()` gives Span(0, 2) on "aa\r\n" |
| DocExamples.WildCountTwoAgain | src/neu/units.rs:629-634 | and then fails |
| DocExamples.SpaceCountOne | src/neu/units.rs:406-414 | one ASCII space gives Span(0, 1) |
| DocExamples.SpaceCountThree | src/neu/units.rs:406-414 | three more give Span(1, 3) |
| DocExamples.SpaceCountOneAtW | src/neu/units.rs:406-414 | at the 'w' it fails |
| DocExamples.OncePlus | src/regex.rs:258-262 | `once('+')` gives Span(0, 1) on "+2077" |
| DocExamples.Many1DigitsAfterPlus | src/regex.rs:259-263 | then `many1` digits give Span(1, 4) |
| DocExamples.OncePlusMissing | src/regex.rs:265-267 | `once('+')` fails on "2077" |
| DocExamples.OptPlusMissing | src/regex.rs:296-298 | `opt('+')` gives Span(0, 0) on "2077" |
| DocExamples.Many1DigitsNoSign | src/regex.rs:296-299 | and the digits give Span(0, 4) |
| DocExamples.Many0DigitsOn2048mb | src/regex.rs:321-324 | `many0` digits give Span(0, 4) on "2048mb" |
| DocExamples.Many0DigitsOnRust | src/regex.rs:326-328 | and Span(0, 0) on "rust2021" |
| DocExamples.Many1DigitsOnRust | src/regex.rs:351-358 | `many1` digits fail on "rust2021" |
| DocExamples.CountLettersOnWebsite | src/regex.rs:380-383 | `count::<0, MAX>('a'..'{')` gives Span(0, 7) on "example.com" |
| DocExamples.SetTimesOnAaffeeeaccc | src/neu.rs:203-208 | `['a','c','f','e'].repeat(2..6)` gives Span(0, 5) |
| DocExamples.SetTimesOnAcdde | src/neu.rs:203-208 | and Span(0, 2) on "acdde" |
| DocExamples.CountIfLastDot | src/regex.rs:409-419 | a `count_if` whose condition refuses a dot with no later dot stops before the last dot |
| DocExamples.CountIfOnDomain | src/regex.rs:409-423 | on "domain.example.com" it gives Span(0, 14) |
| DocExamples.ConsumeEight | src/regex/consume.rs:40-43 | `consume(8)` gives Span(0, 8) on "rust2023" |
| DocExamples.ConsumeAllNineteen | src/regex/consume.rs:138-141 | `consume_all` gives Span(0, 19) |
| DocExamples.LitMagic | src/regex/literal.rs:36-39 | "magic" gives Span(0, 5) |
| DocExamples.UnitOr | src/ctor/or.rs:232-246 | the `or` of two quantifiers is the left outcome unless it fails, then the right one |
| DocExamples.NumberNeedsZero | src/neu/prefix.rs:128-151 | the number predicate refuses a first unit other than '0' |
| DocExamples.NumberOnHex | src/neu/prefix.rs:128-151 | `many1` of the number predicate gives Span(0, 6) on "0x99EF" |
| DocExamples.NumberOnOct | src/neu/prefix.rs:128-151 | and Span(0, 4) on "0o7389EF" |
| DocExamples.NumberOnBin | src/neu/prefix.rs:128-151 | and Span(0, 6) on "0b01102" |
| DocExamples.NumberFailsWithoutZero | src/neu/prefix.rs:128-151 | and fails on data not starting with '0' |
| DocExamples.NumberReOnHex | src/neu/prefix.rs:128-151 | the whole example gives Span(0, 6) on "0x99EF" |
| DocExamples.NumberReOnOct | src/neu/prefix.rs:128-151 | Span(0, 4) on "0o7389EF" |
| DocExamples.NumberReOnBin | src/neu/prefix.rs:128-151 | Span(0, 6) on "0b01102" |
| DocExamples.NumberReOnDec | src/neu/prefix.rs:128-151 | Span(0, 2) on "99EF" |
| DocExamples.NumberReOnDecimal | src/neu/prefix.rs:128-151 | Span(0, 4) on "9899" |
| DocExamples.NumberReOnX | src/neu/prefix.rs:128-151 | fails on "x99EF" |
| DocExamples.HexDigitStep | src/neu/prefix.rs:89-106 | after "0x" every hexadecimal digit is accepted and the state stays put |
| DocExamples.OctStopsAtEight | src/neu/prefix.rs:89-106 | after "0o" the digit '8' is refused |
| DocExamples.BinStopsAtTwo | src/neu/prefix.rs:89-106 | after "0b" the digit '2' is refused |
| CombinatorDocs.LitHit | src/regex/literal.rs:76-86 | a literal that is the data at the offset takes its length |
| CombinatorDocs.LitMiss | src/regex/literal.rs:171-181 | a literal that differs from the data at some position fails at the offset with `LitString` or `LitSlice` |
| CombinatorDocs.LitAt | src/regex/literal.rs:76-86 | on bytes a literal succeeds iff the data from the offset starts with it, taking its length; otherwise it fails in place |
| CombinatorDocs.UnitTakes | src/regex.rs:64-87 | a quantifier over a stateless predicate that accepts exactly k units takes them |
| CombinatorDocs.UnitShort | src/regex.rs:64-87 | and fails at the offset when too few are accepted |
| CombinatorDocs.EmptyOnLetters | src/regex/empty.rs:88-92 | `empty()` gives Span(0, 0) on "aabbccgg" |
| CombinatorDocs.EmptyOnRust | src/regex/empty.rs:38-42 | `empty()` gives Span(0, 0) on "rust is so awesome!" (the same example stands at src/regex/fail.rs:38-42) |
| CombinatorDocs.FailOnLetters | src/regex/fail.rs:88-92 | `fail()` fails on "aabbccgg" |
| CombinatorDocs.LitSliceOnBytes | src/regex/literal.rs:97-101 | `lit_slice(&[0xff, 0xff])` gives Span(0, 2) on [0xff, 0xff, 0x12] |
| CombinatorDocs.LitStringOnRust2023 | src/regex/literal.rs:192-196 | `string("rust")` gives Span(0, 4) on "rust2023" |
| CombinatorDocs.LitStringOnHelloWorld | src/regex/literal.rs:133-136 | `string("hello")` gives Span(0, 5) on "hello world" |
| CombinatorDocs.ConsumeSixOnLetters | src/regex/consume.rs:100-103 | `consume(6)` gives Span(0, 6) on "aabbccgg" |
| CombinatorDocs.ConsumeAllOnLetters | src/regex/consume.rs:195-198 | `consume_all()` gives Span(0, 8) on "aabbccgg" |
| CombinatorDocs.LongestUnfolds | src/ctor/longest.rs:209-226 | `Longest` is the corrected longest match of its two sides |
| CombinatorDocs.LongestOnHttps | src/ctor/longest.rs:41-46 | `"http".longest("https")` gives Span(0, 5) on "https://docs.rs" |
| CombinatorDocs.LongestOnHttp | src/ctor/longest.rs:47-50 | and Span(0, 4) on "http://docs.rs" |
| CombinatorDocs.Many1Run | src/regex.rs:64-87 | `many1` over a run of accepted units ended by a refused unit or the end takes the run |
| CombinatorDocs.Many0Run | src/regex.rs:64-87 | `many0` likewise, also when the run is empty |
| CombinatorDocs.CollectUnfolds | src/ctor/collect.rs:196-217 | `Collect` runs its repetition loop and succeeds iff the count reaches the minimum |
| CombinatorDocs.LoopOverUnits | src/ctor/collect.rs:203-211 | over a one-unit pattern, the loop takes each matching unit and stops at the first other |
| CombinatorDocs.CollectPlus | src/ctor/collect.rs:196-217 | `b"+".collect()` with minimum `min` over a run of k pluses gives Span(0, k) iff k >= min, else the `Collect` error |
| CombinatorDocs.CollectOnMinus | src/ctor/collect.rs:31-33 | it fails on "---A" |
| CombinatorDocs.CollectOnPlus | src/ctor/collect.rs:34 | it gives Span(0, 3) on "+++A" |
| CombinatorDocs.CollectAtLeastThree | src/ctor/collect.rs:36-38 | with `at_least(3)` it fails on "++-A" |
| CombinatorDocs.CharAt | src/regex/literal.rs:171-181 | a one-character literal succeeds iff the data holds that character at the offset |
| CombinatorDocs.EncloseOnDigits | src/ctor/enclose.rs:41-45 | `digit(10).many0().enclose("(", ")")` gives Span(0, 7) on "(42686)" |
| CombinatorDocs.OptHexRun | src/ctor/opt.rs:36-40 | `regex!((digit(16))+).opt()` takes the leading hexadecimal run, possibly empty |
| CombinatorDocs.OptionOnF1 | src/ctor/opt.rs:36-38 | it gives Span(0, 2) on "f1" |
| CombinatorDocs.OptionOnP8 | src/ctor/opt.rs:39 | and the empty span on "p8" |
| CombinatorDocs.DigitBranchLong | src/ctor/branch.rs:37-43 | with three or more units left, the branch takes exactly three digits, and fails in place when fewer than three digits lead |
| CombinatorDocs.DigitBranchShort | src/ctor/branch.rs:37-44 | with fewer left, it takes the digit run |
| CombinatorDocs.BranchOn21345 | src/ctor/branch.rs:43 | it gives Span(0, 3) on "21345" |
| CombinatorDocs.BranchOn42 | src/ctor/branch.rs:44 | and Span(0, 2) on "42" |
| CombinatorDocs.LettersAreAlpha | src/ctor/or.rs:40 | `('a'..='z').or('A'..='Z')` accepts exactly the ASCII letters |
| CombinatorDocs.OrOn8848 | src/ctor/or.rs:38-43 | `digit(16).many1().or(letters)` gives Span(0, 4) on "8848" |
| CombinatorDocs.OrOnHelloWorld | src/ctor/or.rs:44-47 | and Span(0, 5) on "hello world": 'h' is no hexadecimal digit, so the letters take "hello" |
| CombinatorDocs.SuffixIsThen | src/ctor/affix.rs:210-222 | `Suffix` matches as `Then` of the pattern and its suffix |
| CombinatorDocs.CommaWsHit | src/ctor/sep.rs:299 | `",".suffix(ws.many0())` takes the comma and the whitespace run after it |
| CombinatorDocs.CommaWsMiss | src/ctor/sep.rs:299 | and fails at the offset on anything but a comma |
| CombinatorDocs.SepRound | src/ctor/sep.rs:537-546 | an item and a separator that both match count one item and move the loop past both |
| CombinatorDocs.SeparateTakesFour | src/ctor/sep.rs:529-561 | `Separate` with skip and a minimum of at most four takes four items separated as laid out |
| CombinatorDocs.Separate2TakesFour | src/ctor/sep.rs:809-844 | `Separate2<M, N>` with M <= 4 <= N does the same |
| CombinatorDocs.NumListOnBraced | src/ctor/sep.rs:297-301 | `digit(10).many1().sep(",".suffix(ws))` takes "11, 42, 8, 99" inside the braces |
| CombinatorDocs.NumList8OnBraced | src/ctor/sep.rs:599-603 | and `sep2::<_, 0, 8>` takes the same |
| CombinatorDocs.SeparateOnBraces | src/ctor/sep.rs:297-303 | the enclosed list gives Span(0, 15) on "{11, 42, 8, 99}" |
| CombinatorDocs.Separate2OnBraces | src/ctor/sep.rs:599-605 | and so does the `sep2` list |
| CombinatorDocs.PrefixBoth | src/ctor/affix.rs:411-424 | a prefix and a pattern that both match: `Prefix` spans both and ends after the pattern |
| CombinatorDocs.SepOnceIsEnclose | src/ctor/sep.rs:238-247 | `SepOnce` matches as `Enclose` of its three parts |
| CombinatorDocs.QuotedWordRun | src/ctor/then.rs:57-58 | `ascii_alphabetic().many1().enclose("\"", "\"")` takes a quoted letter run |
| CombinatorDocs.SpacedNumRun | src/ctor/then.rs:59-60 | `digit(10).many1().prefix(" ")` takes a space and the digits after it |
| CombinatorDocs.ThenOnGalaxy | src/ctor/then.rs:57-65 | `str.then(int.prefix(" "))` gives Span(0, 11) on "\"Galaxy\" 42" |
| CombinatorDocs.KeyValueRun | src/ctor/sep.rs:51-53 | `key.sep_once("=", val)` with `'='.not().many1()` takes a key, '=' and a value that run to the end |
| CombinatorDocs.SepOnceOnLangRust | src/ctor/sep.rs:51-55 | it gives Span(0, 9) on "lang=rust" |
| CombinatorDocs.AbcOnA | src/ctor/array.rs:137-148 | the choice over "a", "b", "c" takes one unit on data starting with 'a' |
| CombinatorDocs.AbcOnOther | src/ctor/array.rs:137-148 | and fails at the offset with the choice's own error on data starting with none of them |
| CombinatorDocs.ArrayOnAbc | src/ctor/array.rs:31-37 | `array(["a", "b", "c"])` succeeds on "abc" with the cursor at 1 |
| CombinatorDocs.ArrayOnXyz | src/ctor/array.rs:40-43 | and fails on "xyz" with the cursor at 0 |
| CombinatorDocs.SliceOnAbc | src/ctor/slice.rs:45-48 | `slice(&["a", "b", "c"])` gives Span(0, 1) on "abc" |
| CombinatorDocs.PairSliceLast | src/ctor/slice.rs:304-317 | over three alternatives of which only the last succeeds, corrected `PairSlice` gives the last one's outcome |
| CombinatorDocs.PairSliceLastAsWritten | src/ctor/slice.rs:304-317 | and so does the loop as written |
| CombinatorDocs.NumWordOtherOnPtr | src/ctor/slice.rs:196-200 | on "&ptr", `digit(10).many1()` and `word().many1()` fail and `consume_all()` takes all four bytes |
| CombinatorDocs.PairSliceOnPtr | src/ctor/slice.rs:196-205 | `pair_slice` gives Span(0, 4) on "&ptr" |
| CombinatorDocs.PairSliceAsWrittenOnPtr | src/ctor/slice.rs:196-205 | and the loop as written gives the same |
| CombinatorDocs.VectorOnWhile | src/ctor/vec.rs:37-39 | `vector(["for", "while", "repeat"])` gives Span(0, 5) on "while"; so does `pair_vector` (src/ctor/vec.rs:183-189), and any other choice kind |
| CombinatorDocs.VectorOnRepeat | src/ctor/vec.rs:37-40 | and Span(0, 6) on "repeat", as does `pair_vector` (src/ctor/vec.rs:190) |
| CombinatorDocs.TwoItems | src/ctor/sep.rs:529-561 | over two items with a separator between them and none after, the skipping loop counts two more and ends after the second |
| CombinatorDocs.SeparateTakesTwo | src/ctor/sep.rs:529-561 | `Separate` with a minimum of at most two then takes both |
| CombinatorDocs.SeparateTakesThree | src/ctor/sep.rs:529-561 | and with a minimum of at most three, three |
| CombinatorDocs.IfThenOnVec | src/ctor/then.rs:259-264 | `name.if_then(assert("<", true), paras)` gives Span(0, 3) on "Vec": the test fails, so only the name counts |
| CombinatorDocs.VecOfABParams | src/ctor/then.rs:260 | `name.sep(", ").enclose("<", ">")` takes "<A, B>" |
| CombinatorDocs.IfThenOnVecOfAB | src/ctor/then.rs:259-268 | and the whole parser gives Span(0, 9) on "Vec<A, B>" |
| CombinatorDocs.ProtocolOnFtp | src/ctor/affix.rs:38 | `"https".or("http".or("ftp"))` takes "ftp" |
| CombinatorDocs.ProtocolSepOnFtp | src/ctor/affix.rs:38-39 | with `.suffix("://")` it takes "ftp://" |
| CombinatorDocs.DomainOnKernelOrg | src/ctor/affix.rs:40-41 | `alphabetic().many1().sep(".").at_least(2)` takes "ftp.kernel.org" |
| CombinatorDocs.AffixOnKernelOrg | src/ctor/affix.rs:38-46 | `protocol.then(domain)` gives Span(0, 20), the whole of "ftp://ftp.kernel.org" |

## Left out

- Cursor.RegexCtx.SetOffset: an offset past the end of the data is not modelled. The member requires the new offset to be at most `len`, while `set_offset` (src/ctx/regex.rs:343-347) accepts any offset. Every call site in the library keeps the offset within the data.
- Cursor.RegexCtx.Inc: an offset past the end of the data is not modelled. The member requires `offset + n <= len`, while `inc` (src/ctx/regex.rs:349-353) adds without a bound. Every call site in the library keeps the offset within the data.
- Ctor mode is not modelled: the `Ctor::construct` side of every combinator, its handlers and the values it builds (tuples, `Vec`s, arrays of `Option`). This includes the `hexdigit.or(...)` ctor example at src/neu/op_or.rs:162-167. Only the `Regex::try_parse` side, which decides spans and cursor moves, is modelled.
- `try_mat_before` is not part of this model's sources. `Engine.TryMat` runs the matcher directly, which is what `try_mat` does with the empty "before" step at src/ctx/regex.rs:440-448.
- `calc_length` and `new_span_inc` are not part of this model's sources. `Units.CalcLength` computes them as `length_of` from the first unit taken, and a span of 0 when no unit was taken.
- The closures (conditions, `Branch` tests, `Func` predicates, mapper functions) are uninterpreted function values. The Unicode-table classes are such functions too, and so are the `char::is_digit` tests beyond ASCII.
- `Neus.Step`: its contract states only the shape of the next state. The meaning of each predicate is stated by `Connectives`, `Classes`, `MinLengthLaws` and `PrefixVerdicts`.
- `Neus.Step`: `neu::digit(radix)` calls `char::is_digit`, which panics for a radix outside 2 to 36. The model does not model that panic. For such a radix `Step` answers `DigitValue(x) < radix`, which accepts every unit when the radix is above 36. `Neus.RadixDigits` states the behaviour for the radices the source accepts (`Neus.RadixInRange`).
- The model is more general than the source's types in two ways, and it does not exclude the extra combinations. `Wild` and `Digit` are `Neu<char>` only in the source (src/neu/units.rs:463, 612), but `Neus.Neu` allows them on bytes too. `LitSlice` and `LitString` fix the input kind, but `Regexes.LitMatch` accepts a `str` literal on bytes and a slice literal on text.
- `Regexes.Match` and its per-combinator functions state soundness only in their own contracts. What each combinator returns is stated by the `Laws` lemmas and by the interpreter methods proved equal to them.
- `Prefix` keeps its `Cell` state across separate matches. The model threads the state through one quantifier run, and `UnitMatch` returns the final state, but a `Regex` node does not remember it between runs. The documentation examples create a fresh `Prefix` for every match, as the model does.
- `PrefixSync` (atomics) is left out. Its sequential behaviour is that of `Prefix`.
- Floats and the string/UTF-8 parsing mappers (`FromStr`, `FromStrRadix`, `FromUtf8`, `IntoMapper`, ...) are left out because they wrap the standard library.
- `isize`/`usize` are taken to be 8 bytes wide (`Maps.Size`, and `usize::MAX` in `Ranges`).
- `Maps.Select0` and `Maps.Select1` state only that they never fail. Which component each one returns is stated by `SelectRecompose`.
- `ArrayStorer::new_with`, `spans_iter` and `slice_iter` are left out because `OptionSpanIterator` and `IteratorByOptionSpan` are not part of this model.
- `VecStorer::try_cap` and `ArrayStorer::try_cap` panic when the match succeeds and an index is out of range. The model makes the indices a precondition instead, so the precondition also excludes the `Err` the source returns when the match fails with an index out of range.
- `Neus.MinLength`: the one unit it gives every predicate other than `And`, `Or`, `Not`, `Always` and `Never` is assumed, not taken from the source. The `Neu` trait (src/neu.rs:90-92) declares only `is_match`, and the definition of `min_length` it relies on is not part of this model.
- A matcher whose specification is `Diverge` (an open repetition whose item succeeds in place) is not run by the interpreter, since the source loops for ever there. `Laws.CollectSpins` states when that happens.
- The documentation examples are modelled in `DocExamples` and `CombinatorDocs`, on byte input. For the combinators (src/ctor/) and the leaf matchers (src/regex/) this covers every example that decides a span with `try_mat`, apart from the two kinds listed below. For the predicates (src/neu.rs, src/neu/) it covers one or more examples per kind of predicate: ranges, sets, `not`, `and`, `or`, `word`, `wild`, the ASCII classes and `prefix`. The other predicate examples repeat these shapes on other classes. Several of those classes follow the Unicode tables, which the model leaves uninterpreted. The texts are ASCII, except the one holding U+00A0, which is spelt out in UTF-8, so the byte offsets equal the source's. `count::<N>()` is modelled as `between::<N, N>`. `neu::whitespace()` and `neu::alphabetic()` follow the Unicode tables. In the `Separate`, `Separate2` and affix examples they are function parameters, constrained only on ASCII (`CombinatorDocs.WhitespaceOnAscii`, `CombinatorDocs.AlphabeticOnAscii`), which is all those texts need. These examples are left out:
  - the examples at src/ctor/repeat.rs:40-44, src/ctor/repeat2.rs:40-44 and src/ctor/sep.rs:874-881, because `skip_ws` (src/ctor.rs) is not part of this model;
  - the examples that build values with `ctor` (see the first line of this section).
- Logging, the debug macros and the wrapper types (`Box`, `Rc`, `RefCell`, ...) are left out; a wrapped matcher is modelled as the matcher itself.

## Findings

| source | as written | input that shows it | evidently intended | confidence | as-written member | corrected member |
|---|---|---|---|---|---|---|
| src/span.rs:52 | `self.len += other.len + other.beg - (self.beg + self.len)` subtracts before adding | Span(0,5) merged with Span(1,1): 2 - 5 underflows | extend to the end of `other`: len = other.end - self.beg | not executed | Spans.AddAssignUnderflowWitness | Spans.AddAssign |
| src/neu/range.rs:76-95 | `is_empty` returns true for `Included(usize::MAX)..` and uses a wrapping `start + 1` for excluded starts | `usize::MAX..` is called empty though it holds `usize::MAX` | empty iff no `usize` lies within the bounds | not executed | Ranges.IsEmptyAsWrittenWitness | Ranges.IsEmptyCorrect |
| src/neu/range.rs:107-111 | `clone_from` copies the start bound into `end` | cloning 1..5 gives a range without 2 | each bound from its own side | not executed | Ranges.CloneFromWitness | Ranges.CloneFrom |
| src/iter/span.rs:37-39 | the `size_hint` of `IteratorBySpan` is `spans.len()` however far it has gone | one span, after one `next`: the hint says 1, `next` gives None | the number of spans not yet visited | not executed | Iters.SizeHintStaleWitness | Iters.SizeHintRemaining |
| src/ctor/repeat2.rs:202-217 | the loop runs `while cnt <= N`, then `(M..=N).contains(cnt)` | `Repeat2<0, 1>` of "a" on "aa" fails | at most N items, success for M <= count <= N | not executed | AsWritten.Repeat2AsWrittenOnAa | Laws.Repeat2IsRepeat |
| src/ctor/sep.rs:816-833 | `Separate2` loops `while cnt <= N` | `Separate2<0, 1>` of "a" and "," on "a,a" takes two items | at most N items | not executed | AsWritten.Separate2AsWrittenWitness | Engine.TrySeparate2 |
| src/ctor/sep.rs:536-548 | with `skip` false, an item whose separator fails is not counted but stays consumed | `Separate` of "a" and "," on "a": the cursor ends at 1, the span at 0 | the uncounted item is given back | not executed | AsWritten.SeparateNoSkipWitness | Laws.SeparateClean |
| src/ctor/slice.rs:309-315 | `PairSlice::try_parse` has no `break` after a success | alternatives "a" and "b" on "ab" give Span(1, 1) | the first success, as `Slice` | not executed | AsWritten.PairSliceAsWrittenWitness | AsWritten.PairSliceFirstSuccess |
| src/ctor/longest.rs:218-222 | `LongestTokenMatch` compares end offsets only | `fail` against `empty`: the failure wins | a success beats a failure | not executed | AsWritten.LongestAsWrittenWitness | Laws.LongestIsLongest |
| src/ctx/guard.rs:115-119 | the guard's `try_mat` clears the reset flag on success and never sets it on an error, so `Then`, `Suffix`, `Prefix`, `Enclose` and `SepOnce` (src/ctor/then.rs:222-231) fail with the cursor moved | `"a".then("b")` on "ac" fails with the cursor at 1 | a failure resets the cursor to the entry offset. This is documented for `Then` (src/ctor/then.rs:31), `Enclose` (src/ctor/enclose.rs:35) and `SepOnce` (src/ctor/sep.rs:41-42). For `Suffix` and `Prefix` it follows their ctor-mode `process_ret` (src/ctor/affix.rs:199, 400) and the comment at src/ctor/collect.rs:201 | not executed | AsWritten.ThenAsWrittenOnAc | Laws.SequenceFailRewinds |
