# Models and proofs for the depot's protocols

Dafny models of the parts of this repository whose correctness rests on an argument across
several functions or over many steps, with proofs of what they promise.

- **netencode** (`netencode/`): the encoder with its length-prefixed inner buffers, the
  streaming parser with its four outcomes (value, incomplete, error, failure), and the reader
  that parses a growing buffer again and again. An encoding parses back exactly; what the parser
  has decided stays decided when input is appended; so the way a stream is cut into chunks does
  not matter. What becomes of every form of the notation is told by its bytes (`Forms`, `Frames`).
  Record iteration order is left open: `View` is a value with some order of its entries, and the
  theorems are for all of them.
- **Tvix** (`tvix/`): equality as a worklist on the machine's own stack against a recursive
  comparison, that against structural equality, and its rules by keys, texts and numbers; the
  compiler's `Scope` as a prediction of the runtime stack and as a flat form of nested
  environments, in one context and across nested ones with their upvalues and the values that
  these capture, through any nesting and recursion; run-length encoded spans; the version
  tokeniser, by bytes, and its order; `genericClosure`.
- **Nixery** (`nixery/`): layers from a dependency graph, with dominance defined by paths; the
  upload protocol, with an account of every call, and the popularity pipeline as step systems over
  arbitrary interleavings.
- **journaldriver** (`journaldriver/`): flushing and saving the cursor, and delivery over a whole
  life of deaths and restarts.

What the code changes in place is a class with those fields and methods that are proved
against functions; protocols between threads, and lives with crashes, are states, events and
steps, and their theorems are about every finite sequence of enabled events.

## Assumptions

- Hashes do not collide (`Upload.Injective`), and `Move` does what its interface says
  (tools/nixery/storage/storage.go:33-35): on success the object is there under its new name.
- The dominator tree of the graph library is the tree of immediate dominators
  (`Dominators.IsTree`); `Dominators.TreeExists` and `TreeUnique` say that every graph has exactly
  one, and `Grouping.HasTree` builds it with its lists of children.
- Where `nix_op_eq` is given a meaning, values come from one heap (one address, one contents),
  forcing and coercing succeed, a `type` attribute is a string, and one of the two sides holds no NaN
  and no builtin outside of derivations. The refinement to the recursive comparison needs none of
  this.
- The events of `ScopeRuns` follow the compiler's discipline (`ScopeRuns.Allowed`): tokens are
  poisoned at the current depth, locals of a scope get their values in the order of their
  declaration, each while it is the only value on the frame that no local has taken over, a scope
  is opened only over values of locals, and it is ended only while some shallower local exists.
  The first item of a list lies in the slot that the list itself will have, which nobody can read
  by name. Any number of operands may lie on the frame otherwise, also while a context is entered.
- A failed read from the journal skips no entry, and renaming a file is atomic.

## Where the code differs from what is written about it

- The format describes all integers, but the parser reads the digits before it applies the
  sign, so the minimum of each signed type does not parse back; inside a list it even ends the
  list silently. `RoundTrip.RoundTrip` is exact about this, `RoundTrip.MinimumVanishes` is the instance.
- The format's description says of a repeated tag both that the earlier ones and that the later
  ones are ignored; in the code the last value wins.
- The versions' documentation names `.` and `_` as dividers; the code divides at `.` and `-`.
- The range of a word starts with one byte of its first character. So a word that begins with a
  longer character loses as many bytes at its end as that has more than one, and the program ends
  when these are not whole characters: `Versions.CutExactly` and `Versions.WideWords`.
- Two layers with the same rating make the list of layers, and with merging the contents of a
  layer, depend on orders that nothing fixes: that of the library's children and that of an
  unstable sort. `Ties.OneOutcomeExactly` says that nothing else does.
- The comment on the last loop of the popularity counter speaks of self-references; the code drops
  what has been referenced exactly once.
- The cloud storage backend does not look at the HTTP status of a move
  (tools/nixery/storage/gcs.go:141-144), so it can report a move that did not take place. The
  theorems in `Upload` are about backends that keep the interface; `FalseMoves.NamesExactly` says
  which false moves break them: exactly those of layers that are not in the bucket yet.
- A local cache entry need not be that of the bucket. The cause is always that a readable build is
  taken to be missing, so that the key is uploaded again: then the entry in the cache differs
  from the build until it has been stored, and for good if storing it fails
  (`CacheAgreement.FalseMissDisagrees`); and even when it is stored, a fill that was started
  before can put the old entry back (`CacheAgreement.LateFill`). Both entries name stored layers.
  A run keeps the two in agreement about a key, however it goes on, if and only if it takes no
  readable build of that key to be missing (`CacheAgreement.RunAgreesExactly`).
- Delivery is not gapless from the first start on: a process that dies before its first cursor
  is saved is followed by one that starts at the tail (`Delivery.LostEntry`).
  `Delivery.AttemptedUpToCursor` says exactly when there is no gap.

## Model

| member | source | states |
|---|---|---|
| `Bytes.ReadShow` | users/Profpatsch/netencode/netencode.rs:153-164 | A printed number reads back as itself. |
| `Bytes.ShowIsShortest` | users/Profpatsch/netencode/netencode.rs:320-327 | Printing a number that was read never takes more bytes than the digits it was read from (leading zeros included). |
| `Nom.NumberOfShow` | users/Profpatsch/netencode/netencode.rs:320-327 | A printed number followed by anything but a digit parses to exactly that number if it is in range, and to an error if it is not. |
| `Nom.NumberStable` | users/Profpatsch/netencode/netencode.rs:320-327 | What the streaming number parser has decided stays decided when bytes are appended. |
| `Nom.CharStable` | users/Profpatsch/netencode/netencode.rs:333 | The streaming single-character parser keeps its decision when bytes are appended. |
| `Nom.LiteralStable` | users/Profpatsch/netencode/netencode.rs:315-318 | So does the literal parser, which asks for more only while the input is a prefix of the literal. |
| `Nom.TakeStable` | users/Profpatsch/netencode/netencode.rs:335 | So does taking a number of bytes. |
| `Netencode.EncodeTag` | users/Profpatsch/netencode/netencode.rs:143-147 | Appends exactly the encoding of the tag and nothing else to the sink. |
| `Netencode.Encode` | users/Profpatsch/netencode/netencode.rs:149-195 | Appends exactly the encoding of the value to the sink; the inner sinks of lists and records end up as their length-prefixed contents. |
| `Netencode.Sink.Write` | users/Profpatsch/netencode/netencode.rs:165-169 | Appends the bytes and nothing else. |
| `Netencode.EncodeRecord` | users/Profpatsch/netencode/netencode.rs:176-184 | Appends the framed contents that the inner sink has collected, entry by entry. |
| `Netencode.EncodeList` | users/Profpatsch/netencode/netencode.rs:185-193 | Appends the framed contents that the inner sink has collected, item by item. |
| `RoundTrip.RoundTrip` | users/Profpatsch/netencode/netencode.rs:149-195 | Main result. For every typed value, every order of record entries at every depth and every tail: parsing the encoding with the tail behind it gives the value and the tail exactly if no record is empty and no integer is its type's minimum; otherwise it gives an error or a different value, and never asks for more input. |
| `RoundTrip.TagRoundTrip` | users/Profpatsch/netencode/netencode.rs:390-406 | The same for one tag. |
| `RoundTrip.ItemsRoundTrip` | users/Profpatsch/netencode/netencode.rs:453-462 | The items of a list parse back as a whole exactly if all of them do. |
| `RoundTrip.EntriesRoundTrip` | users/Profpatsch/netencode/netencode.rs:474-492 | The entries of a record parse back as a whole exactly if all of them do; otherwise the parse fails or is cut short at the first one that does not. |
| `RoundTrip.SizedOfFramed` | users/Profpatsch/netencode/netencode.rs:329-338 | A length-prefixed frame yields its contents and its tail. |
| `RoundTrip.IntegerOfPrinted` | users/Profpatsch/netencode/netencode.rs:361-380 | A printed signed integer is read back unless it is the minimum of its type: the digits are parsed before the sign is applied. |
| `RoundTrip.MinimumVanishes` | users/Profpatsch/netencode/netencode.rs:453-462 | A concrete loss outside the domain: the list of the 8-bit minimum parses, without an error, to the empty list. |
| `Forms.ReadIsDecimal` | users/Profpatsch/netencode/netencode.rs:320-327 | Digits are read as the sum of each digit times the power of ten of its place. |
| `Forms.LeadingZero` | users/Profpatsch/netencode/netencode.rs:599-602 | A zero in front changes nothing. |
| `Forms.NumberIs` | users/Profpatsch/netencode/netencode.rs:320-327 | Any digits with another byte behind them are their decimal number if it is in range, and an error if it is not. |
| `Forms.NaturalIsRead` | users/Profpatsch/netencode/netencode.rs:340-352 | Main result. For any digits, byte behind them and tail: what `t_t` makes of `n2` to `n7`, with the range of each in figures. |
| `Forms.IntegerIsRead` | users/Profpatsch/netencode/netencode.rs:361-380 | Main result. The same for `i1` to `i7`, with and without a sign. |
| `Forms.BooleanIsRead` | users/Profpatsch/netencode/netencode.rs:354-359 | Of `n1`, exactly 0 and 1 without further digits are values. |
| `Forms.OtherTypes` | users/Profpatsch/netencode/netencode.rs:529-555 | Every other type tag is an error. |
| `Forms.OtherLetters` | users/Profpatsch/netencode/netencode.rs:529-555 | Every other first byte is an error. |
| `Frames.SizedIs` | users/Profpatsch/netencode/netencode.rs:329-338 | A length of any digits, its colon, as many bytes and the closing byte; what is wrong with any of them is an error. |
| `Frames.TextIsRead` | users/Profpatsch/netencode/netencode.rs:414-428 | Text that is not UTF-8 is a failure, which ends all parsing; a binary holds any bytes. |
| `Frames.UnitIsRead` | users/Profpatsch/netencode/netencode.rs:315-318 | The unit is two bytes. |
| `Frames.TagIsRead` | users/Profpatsch/netencode/netencode.rs:390-406 | A tag that is not UTF-8 is a failure, but only once its value has been parsed; what becomes of the value comes first. |
| `Frames.ListIsRead` | users/Profpatsch/netencode/netencode.rs:453-462 | Main result. A list of written values with anything behind them that is no further value: what no value begins with is dropped, what is incomplete makes the list so, a failure ends all. |
| `Frames.RecordIsRead` | users/Profpatsch/netencode/netencode.rs:474-505 | Main result. The same for records, with repeated tags, of which the last is kept; without an entry a record is a failure. |
| `Utf8.ValidExactly` | users/Profpatsch/netencode/netencode.rs:414-420 | Main result. The check on text accepts exactly the encodings of strings. |
| `Streaming.SizedStable` | users/Profpatsch/netencode/netencode.rs:329-338 | Framing is stable under appending. |
| `Streaming.TagStable` | users/Profpatsch/netencode/netencode.rs:390-406 | Tags are stable under appending, through the recursion into values. |
| `Streaming.ValueStable` | users/Profpatsch/netencode/netencode.rs:529-555 | Main result. For any bytes, well-formed or not: an Ok parse stays the same Ok parse with the extra bytes in its rest, and an error stays that error, however the input is extended. |
| `Streaming.Dispatch` | users/Profpatsch/netencode/netencode.rs:529-555 | The chain of alternatives is a case distinction on the first byte; no other alternative can change the outcome. |
| `Normal.ValueLands` | users/Profpatsch/netencode/netencode.rs:529-555 | Whatever parses is in the domain of the round trip, in every order of its entries, and its encoding is no longer than the bytes it was read from. |
| `Normal.EntriesLand` | users/Profpatsch/netencode/netencode.rs:474-500 | The same for record bodies, where a repeated tag keeps its last value. |
| `Normal.Normalises` | users/Profpatsch/netencode/netencode.rs:149-195 | Main result. Any bytes that parse (leading zeros, repeated tags, rarer widths) give a value whose every encoding parses back to that value with exactly the new tail left. |
| `Normal.HasView` | users/Profpatsch/netencode/netencode.rs:37-56 | Every value has at least one order of its record entries, so the statements over all orders are about something. |
| `Reader.StrictPrefixIncomplete` | users/Profpatsch/netencode/netencode.rs:529-555 | Every strict prefix of an encoding asks for more input. |
| `Reader.Chunkyboi.Next` | users/Profpatsch/netencode/netencode.rs:285-298 | A chunk is not empty and is exactly what the stream has lost; the end and errors are those of the stream. |
| `Reader.ValueFromStream` | users/Profpatsch/netencode/netencode.rs:223-269 | Main result. However the stream cuts its bytes into portions, the outcome is that of parsing everything readable at once, the returned rest and the unread part together being the rest; read errors, an empty and an incomplete input end as they should. |
| `Reader.WrittenIsRead` | users/Profpatsch/netencode/netencode.rs:223-269 | A written value comes back out of any chunking, with the tail split between rest and unread input. |
| `Reader.Stream.Read` | users/Profpatsch/netencode/netencode.rs:289-296 | Fills a prefix of the buffer with the next bytes of the stream; a count of 0 means the end and nothing else does. |
| `Reader.WrittenListIsRead` | users/Profpatsch/netencode/netencode.rs:220-226 | Main result. Calls that pass the rest on as initial bytes read exactly the values of a list of encodings, in order, in whatever chunks, and leave the calls behind them exactly the bytes behind the encodings. |
| `Reader.ThenNothing` | users/Profpatsch/netencode/netencode.rs:220-226 | With nothing behind the encodings, one more call finds nothing, and only then. |
| `Reader.ReadAll` | users/Profpatsch/netencode/netencode.rs:220-269 | The calls themselves: each with the rest of the one before, until one gives no value; their outcomes are such calls on all that can be read, and they end. |
| `Reader.ReadWritten` | users/Profpatsch/netencode/netencode.rs:220-269 | Main result. A stream that holds nothing but a list of encodings, in whatever chunks, is read as exactly their values, and then nothing. |
| `NixWorklist.WorkOfLists` | tvix/eval/src/vm.rs:468-472 | Pushing the pairs of two lists onto the worklist is worth as much as comparing the lists recursively, and their size is what the worklist grows by. |
| `NixWorklist.VM.PushAttrs` | tvix/eval/src/vm.rs:516-528 | Pushes pairs as long as the sorted keys agree; says whether all of them did. |
| `NixWorklist.VM.CompareAttrs` | tvix/eval/src/vm.rs:484-529 | One step on two attribute sets, with the derivation rule: its answer, or the pairs it leaves, are those of the recursive comparison. |
| `NixWorklist.VM.CompareNext` | tvix/eval/src/vm.rs:438-545 | One iteration of the loop: the answer of the popped pair, or a worklist that is worth as much as the pair and smaller than it. |
| `NixWorklist.VM.NixOpEq` | tvix/eval/src/vm.rs:418-550 | Main result. The loop ends; on every normal exit, an early false included, the stack below the operands is unchanged and has one Bool more, which is the recursive comparison's answer; an error is the recursive comparison's error. |
| `NixWorklist.VM.NixEq` | tvix/eval/src/vm.rs:403-416 | The answer of the recursive comparison, on an unchanged stack. |
| `NixWorklist.VM.PushItems` | tvix/eval/src/vm.rs:468-472 | The pairs of both lists in order, on top of what is there. |
| `NixWorklist.VM.PushPair` | tvix/eval/src/vm.rs:469-470 | One pair more on top of the worklist. |
| `NixWorklist.VM.Pop` | tvix/eval/src/vm.rs:192-194 | The top value, and the stack without it. |
| `NixWorklist.VM.Push` | tvix/eval/src/vm.rs:200-202 | The stack with the value on top. |
| `NixWorklist.VM.PopThenDrop` | tvix/eval/src/vm.rs:196-198 | The stack without its last values. |
| `NixMeaning.CompareMeans` | tvix/eval/src/vm.rs:418-550 | Main result. For values that can be read without failing, with one heap behind their addresses and one side free of NaN and builtins outside of derivations, the comparison decides structural equality (functions by pointer, only inside a structure; derivations by output path), whichever of its pointer shortcuts it has taken. |
| `NixMeaning.SharedContents` | tvix/eval/src/vm.rs:460-482 | The shortcuts for lists and sets at one address are sound. |
| `NixMeaning.SharedThunk` | tvix/eval/src/vm.rs:438-451 | The shortcut for one thunk on both sides is sound. |
| `NixMeaning.Reflexive` | tvix/eval/src/vm.rs:533-544 | Inside a structure, exactly the values without NaN and builtins outside of derivations equal themselves. |
| `NixMeaning.Symmetric` | tvix/eval/src/vm.rs:418-550 | The meaning does not depend on the order of the operands, although the code forces and tests them in an order. |
| `NixMeaning.SharedNaN` | tvix/eval/src/vm.rs:460-464 | The instance: a list of a NaN equals itself by address and not by contents. |
| `NixMeaning.SharedExactly` | tvix/eval/src/vm.rs:438-482 | Main result. A list, set or thunk is found equal to itself by address, whatever it holds; that is what the value means if and only if it has no NaN and no builtin outside of derivations. |
| `NixMeaning.NeverFails` | tvix/eval/src/vm.rs:418-550 | Comparing what can be read never fails, also outside the domain of the meaning. |
| `NixMeaning.OneDerivation` | tvix/eval/src/vm.rs:484-529 | A derivation and another set with the same keys are different, whatever is in them. |
| `NixRules.Derivations` | tvix/eval/src/vm.rs:484-512 | Main result. Two sets at different addresses whose `type` is the text `derivation` are equal exactly if their `outPath` is the same text, whatever else they hold; without one the program ends, and one that is no text is an error, the first set before the second. |
| `NixRules.OtherSets` | tvix/eval/src/vm.rs:484-529 | Main result. Sets of which not both are derivations need the same keys and equal values. |
| `NixRules.TypeFails` | tvix/eval/src/vm.rs:484-497 | A `type` that is no text is an error, unless the first set is known to be no derivation before. |
| `NixRules.OneAddress` | tvix/eval/src/vm.rs:476-481 | Inside a structure, sets at one address are equal. |
| `NixRules.Lists` | tvix/eval/src/vm.rs:460-474 | Lists at one address are equal, lists of different lengths are not, and otherwise the last elements that are not equal decide, also about failing. |
| `NixRules.ThunksCompare` | tvix/eval/src/vm.rs:438-459 | Thunks compare as what they evaluate to, but one thunk on both sides is equal to itself where that is allowed. |
| `NixRules.BrokenFails` | tvix/eval/src/vm.rs:438-459 | A thunk that fails makes the comparison fail. |
| `NixRules.Shapes` | tvix/eval/src/vm.rs:534-544 | Functions are equal only by address and only inside a structure; values of different shapes are not equal. |
| `NixRules.Texts` | tvix/eval/src/value/mod.rs:318-341 | Strings and paths are equal by their texts; builtins are never equal. |
| `NixRules.Truths` | tvix/eval/src/value/mod.rs:318-341 | Truth values are equal by their value; null equals null. |
| `NixRules.Numbers` | tvix/eval/src/value/mod.rs:318-341 | Integers and floats are equal by their numbers. |
| `NixRules.MixedNumbers` | tvix/eval/src/value/mod.rs:326-330 | Main result. An integer and a float are equal exactly if the float is the double nearest to the integer. |
| `NixRules.NaNDiffers` | tvix/eval/src/value/mod.rs:318-341 | NaN equals nothing. |
| `NixRules.KindsDiffer` | tvix/eval/src/value/mod.rs:318-341 | Leaves of different kinds are not equal. |
| `Doubles.AsFloatIsNearest` | tvix/eval/src/value/mod.rs:328 | Main result. The conversion of an integer to a double gives a double, none is nearer, and of two that are as near it is the one whose last bit is 0. |
| `Doubles.WholeNumbersStay` | tvix/eval/src/value/mod.rs:328 | Integers of up to 53 bits convert to themselves. |
| `Scope.Scope.Poison` | tvix/eval/src/compiler/scope.rs:156-168 | The first depth that poisoned a token is kept; everything else is unchanged. |
| `Scope.Scope.Inherit` | tvix/eval/src/compiler/scope.rs:171-178 | A child context with the poison of its parent, one deeper, without locals; the parent is unchanged. |
| `Scope.Scope.ResolveLocal` | tvix/eval/src/compiler/scope.rs:209-228 | Finds the last local of the name, says whether it has its value yet, and changes nothing but its used mark. |
| `Scope.Scope.EndScope` | tvix/eval/src/compiler/scope.rs:304-337 | Drops exactly the locals behind the last one of another depth, counts those that are on the stack, lists the spans of the unused ones, lifts the poison of this depth. |
| `Scope.KeptCountIs` | tvix/eval/src/compiler/scope.rs:313-332 | The locals that stay end with one of another depth and are followed only by locals of this depth. |
| `Scope.Scope.Unpoison` | tvix/eval/src/compiler/scope.rs:187-190 | Lifts exactly the poison of the current depth. |
| `Scope.Scope.PushWith` | tvix/eval/src/compiler/scope.rs:193-195 | One more `with`, and nothing else. |
| `Scope.Scope.PopWith` | tvix/eval/src/compiler/scope.rs:198-200 | One `with` less, and nothing else. |
| `Scope.Scope.DeclarePhantom` | tvix/eval/src/compiler/scope.rs:231-244 | One more local of the current depth, without a name and counted as used. |
| `Scope.Scope.DeclareLocal` | tvix/eval/src/compiler/scope.rs:247-260 | One more local of the current depth, without a value and unused. |
| `Scope.Scope.MarkInitialised` | tvix/eval/src/compiler/scope.rs:263-265 | That local has its value; nothing else changes. |
| `Scope.Scope.BeginScope` | tvix/eval/src/compiler/scope.rs:292-294 | One deeper, and nothing else. |
| `Scope.Scope.IsPoisoned` | tvix/eval/src/compiler/scope.rs:181-183 | Whether the token is among the poisoned ones. |
| `ScopeRuns.FrameStack.OpCloseScope` | tvix/eval/src/vm.rs:804-814 | Removes the given number of values below the top of the frame and keeps the top; what lies below the frame is unchanged. |
| `ScopeRuns.FrameStack.OpGetLocal` | tvix/eval/src/vm.rs:816-819 | Pushes the value at the slot; everything below is unchanged. |
| `ScopeRuns.Keeps` | tvix/eval/src/compiler/scope.rs:263-337 | Main result. Every event of the compiler's discipline keeps the invariant: the initialised locals, in order of their indices, are exactly the bottom of the frame's stack, and what lies above are the values that no local has taken over (any number of operands, arguments, parts). |
| `ScopeRuns.InitialisedSlot` | tvix/eval/src/compiler/scope.rs:281-289 | `stack_index` of an initialised local is the slot that holds its value. |
| `ScopeRuns.PendingSlot` | tvix/eval/src/compiler/scope.rs:281-289 | `stack_index` of the local that is marked next is the slot where its value has just been put. |
| `ScopeRuns.SlotFixed` | tvix/eval/src/compiler/scope.rs:281-289 | Over every disciplined run in which a local lives, its name, depth and `stack_index` do not change, nor its value once it has one. |
| `ScopeRuns.PredictedSlot` | tvix/eval/src/compiler/scope.rs:281-289 | The slot that is computed for a local before it has its value is where the value is found at the end of any run in which it gets one. |
| `ScopeRuns.ClosedFrame` | tvix/eval/src/compiler/scope.rs:304-337 | Closing a scope leaves the frame of the outer locals with the result on top. |
| `ScopeRuns.RunInside` | tvix/eval/src/compiler/scope.rs:263-337 | While a deeper scope is open, no run touches the locals and values of the outer one. |
| `ScopeRuns.Balanced` | tvix/eval/src/vm.rs:804-814 | Main result. Begin, any disciplined run inside, and the close with the count from `end_scope`: the outer stack plus the result, and the outer locals (up to used marks), depth and poison are restored. |
| `ScopeRuns.StepPersists` | tvix/eval/src/compiler/scope.rs:281-289 | No single event moves a living local. |
| `ScopeRuns.KeepsMark` | tvix/eval/src/compiler/scope.rs:263-265 | Marking the next pending local claims the value on top of the stack for it. |
| `ScopeRuns.KeepsDeclare` | tvix/eval/src/compiler/scope.rs:231-260 | Declaring keeps the invariant, also for a phantom that has its value already. |
| `ScopeRuns.KeepsCollectInto` | tvix/eval/src/compiler/mod.rs:521-546 | A list whose first item lies in the slot of the list itself takes that slot over at its end, and the invariant is kept. |
| `ScopeNesting.ResolvesInnermost` | tvix/eval/src/compiler/scope.rs:209-228 | A flat scope that stands for nested environments resolves a name to its innermost binding. |
| `ScopeNesting.InheritRefines` | tvix/eval/src/compiler/scope.rs:171-178 | `inherit` is a new environment on top of all the others, with none of their bindings and all of their poison. |
| `ScopeNesting.EndRefines` | tvix/eval/src/compiler/scope.rs:304-337 | `end_scope` takes off the innermost environment. |
| `ScopeNesting.StepRefines` | tvix/eval/src/compiler/scope.rs:156-337 | Every event on the flat list of locals is the corresponding one on the stack of environments. |
| `ScopeNesting.RunRefines` | tvix/eval/src/compiler/scope.rs:156-337 | Every disciplined run on the flat scope goes through the flat forms of the run on the environments, which are never taken apart too far. |
| `ScopeNesting.BeginRefines` | tvix/eval/src/compiler/scope.rs:292-294 | `begin_scope` opens an empty environment. |
| `ScopeNesting.DeclareRefines` | tvix/eval/src/compiler/scope.rs:231-260 | A declaration binds in the innermost environment only. |
| `ScopeNesting.PoisonRefines` | tvix/eval/src/compiler/scope.rs:156-166 | Poisoning at the current depth poisons in the innermost environment; the outermost one that poisons is remembered. |
| `ScopeNesting.EmptyRefines` | tvix/eval/src/compiler/scope.rs:123-146 | The empty scope is one empty environment. |
| `ScopeNesting.RunMeans` | tvix/eval/src/compiler/scope.rs:156-337 | Main result. After any disciplined run, from any scope that stands for some environments: a token is poisoned exactly when an environment that is still open has poisoned it, and `resolve_local` finds the innermost open binding. |
| `ScopeNesting.RootRunMeans` | tvix/eval/src/compiler/scope.rs:156-337 | The same from the empty scope, against the run of the events on one empty environment. |
| `ScopeNesting.ChildInv` | tvix/eval/src/compiler/scope.rs:171-178 | A context made by `inherit` starts with its stack in agreement with its locals. |
| `ScopeContexts.Compiler.ResolveLocal` | tvix/eval/src/compiler/bindings.rs:752 | `resolve_local` in one context: its answer and the used mark, nothing else. |
| `ScopeContexts.Compiler.AddUpvalue` | tvix/eval/src/compiler/bindings.rs:773-796 | The index of the upvalue of that kind, which is added at the end only if there is none. |
| `ScopeContexts.Compiler.ResolveUpvalue` | tvix/eval/src/compiler/bindings.rs:740-771 | The upvalues are added in every context on the way, from the outside inwards, as the recursion says. |
| `ScopeContexts.Compiler.NewContext` | tvix/eval/src/compiler/mod.rs:1097-1102 | One context more, inheriting from the innermost one, which is unchanged. |
| `ScopeContexts.Compiler.AccessIdentifier` | tvix/eval/src/compiler/bindings.rs:687-729 | A local of the innermost context that has its value, one that still waits for it, or else the upvalue, or none of these. |
| `ScopeContexts.UpvalueMeans` | tvix/eval/src/compiler/bindings.rs:740-796 | Main result. `resolve_upvalue` succeeds exactly if a context around has a local of the name; then the chain of upvalues leads to that of the innermost such context, and all older chains still lead where they led. |
| `ScopeContexts.DenotesStays` | tvix/eval/src/compiler/bindings.rs:773-796 | Used marks and further upvalues do not change where a chain leads. |
| `ScopeContexts.FindIsInnermost` | tvix/eval/src/compiler/bindings.rs:740-771 | Searching the contexts from the inside outwards finds the innermost binding of all open environments, in the context that it belongs to. |
| `ScopeContexts.DoRefines` | tvix/eval/src/compiler/mod.rs:899-930 | Every step (an event, a new context, the end of one, an access) does to the contexts what it does to the one stack of environments. |
| `ScopeContexts.DoKeepsInv` | tvix/eval/src/compiler/mod.rs:899-930 | Every step keeps the stack of every open context in agreement with its locals. |
| `ScopeContexts.WorkMeans` | tvix/eval/src/compiler/mod.rs:899-930 | Main result. After any work in any nesting of contexts, a token is poisoned in the innermost one exactly when some open scope, there or around, has poisoned it, and the search through the contexts finds the innermost open binding. |
| `ScopeContexts.AccessMeans` | tvix/eval/src/compiler/bindings.rs:672-730 | Main result. A name that is no local of the innermost context gets an upvalue exactly if some open scope around binds it, and the upvalue leads to the innermost of these bindings. |
| `ScopeContexts.BalancedContexts` | tvix/eval/src/compiler/mod.rs:899-927 | Main result. Entering a context, over whatever lies on the frame, any work inside, and leaving it: exactly the environments are open that were open before, and the contexts around are as before up to used marks, new upvalues and the one value on top of the innermost frame. |
| `ScopeContexts.Compiler.ThunkAwaited` | tvix/eval/src/compiler/bindings.rs:721-728 | The thunk for a local that still waits has that local as its one upvalue, and leaves the contexts as they were. |
| `Accesses.AccessIs` | tvix/eval/src/compiler/bindings.rs:687-729 | Main result. An access is to the frame exactly if the last local of the name in the innermost context has its value, which it reads there; it waits exactly if that local has none; otherwise it is an upvalue that leads to the innermost local of the name further out, and nowhere exactly if there is none. |
| `Accesses.UnusedAre` | tvix/eval/src/compiler/scope.rs:322-333 | What is reported as unused at the end of a scope is exactly the locals that nobody has used and whose names do not begin with an underscore. |
| `ScopeLet.LetReads` | tvix/eval/src/compiler/bindings.rs:650-656 | Main result. A `let` with any number of bindings whose body is one of its names: its events are disciplined and lead to where it began, with the value of that name on the frame; of several bindings of the name, the last one's. |
| `ScopeLet.LookUp` | tvix/eval/src/compiler/scope.rs:209-227 | Looking up a name of the `let` finds its last binding. |
| `Upvalues.EmitUpvalueData` | tvix/eval/src/compiler/mod.rs:1011-1036 | For each upvalue the slot of the local, at once or deferred if it waits for its value, or the upvalue of the context around; something has to be finalised exactly if one is deferred. |
| `Upvalues.RuntimeUpvalues.Populate` | tvix/eval/src/vm.rs:1000-1035 | One captured value or deferred slot for every piece of data; fails exactly if a slot is not there. |
| `Upvalues.RuntimeUpvalues.ResolveDeferred` | tvix/eval/src/upvalues.rs:68-77 | What was captured stays; every deferred slot is filled from the frame. |
| `Upvalues.WorkKeepsFits` | tvix/eval/src/compiler/bindings.rs:740-796 | Over every work from the start, every upvalue refers to a local or an upvalue that the context around has. |
| `Upvalues.ChainsEnd` | tvix/eval/src/compiler/bindings.rs:740-796 | So every chain of upvalues ends at a local of a context around. |
| `Upvalues.CapturedLocal` | tvix/eval/src/vm.rs:1000-1035 | Main result. What is captured of a local, at once or deferred and filled in later, is its value at every later time at which it still exists and has one. |
| `Captures.WorkIsRun` | tvix/eval/src/compiler/mod.rs:899-930 | Main result. Over any work of the compiler, what happens to a context that stays open is a disciplined run of that context alone: leaving one within it evaluates a value, looking a name up resolves it or does nothing, and a local that stays is live. |
| `Captures.LocalCaptured` | tvix/eval/src/vm.rs:1000-1035 | What is captured of a local when a context is left, at once or deferred and filled in by the end of later work, is the value that the local has got by then. |
| `Captures.CapturesMeant` | tvix/eval/src/vm.rs:1000-1035 | Main result. If the upvalues of a context are the values that the locals they stand for have or will get, then so are those of every closure or thunk that it makes, deferred ones included; so the step can be repeated. |
| `Captures.NestingSound` | tvix/eval/src/vm.rs:1000-1035 | Main result. In any nesting of functions and thunks, from the outermost inwards, every upvalue of every one of them exists and is the value of the local that its name stands for. |
| `Captures.SoundEarlier` | tvix/eval/src/compiler/mod.rs:1011-1036 | Upvalues that are right when compilation has ended were right for every function that was made before. |
| `Captures.CapturesItself` | tvix/eval/src/compiler/bindings.rs:721-728 | The instance: for a function that refers to the local it is going to be bound to, all that is asked there holds. |
| `Chunk.CanonicalIsUnique` | tvix/eval/src/chunk.rs:98-109 | A list of spans has only one encoding without empty runs and without equal neighbours. |
| `Chunk.Chunk.PushOp` | tvix/eval/src/chunk.rs:61-67 | Adds one instruction and one span to the list that the table encodes; the table stays canonical. |
| `Chunk.Chunk.PushSpan` | tvix/eval/src/chunk.rs:98-109 | Adds one span to that list; the table stays canonical. |
| `Chunk.Chunk.PopOp` | tvix/eval/src/chunk.rs:70-87 | Takes the last instruction and the last span off; the table stays canonical. |
| `Chunk.Chunk.GetSpan` | tvix/eval/src/chunk.rs:112-123 | That instruction's span for every valid offset; the panic is reached exactly for offsets past the code. |
| `Versions.VersionPartsIter.Next` | tvix/eval/src/builtins/versions.rs:88-154 | The stateful tokeniser, with its ranges of bytes, yields one by one what it can cut out of the maximal runs of digits and of other characters between dividers, and ends the program exactly where it cuts into a character. |
| `Versions.PartsOfDivided` | tvix/eval/src/builtins/versions.rs:104-116 | A divider separates: the parts of `s.t` are those of `s` followed by those of `t`. |
| `Versions.PartsKeepText` | tvix/eval/src/builtins/versions.rs:88-154 | The parts hold every character but the dividers, in order. |
| `Versions.VersionPartsIter.constructor` | tvix/eval/src/builtins/versions.rs:62-68 | A fresh tokeniser, of any text, is before all parts. |
| `Versions.CutExactly` | tvix/eval/src/builtins/versions.rs:136-152 | Main result. A run comes out as it is if and only if it is a number or a word that begins with a character of one byte. |
| `Versions.CutBegins` | tvix/eval/src/builtins/versions.rs:136-152 | What is cut out of a run that begins with a longer character still begins with it. |
| `Versions.WideWords` | tvix/eval/src/builtins/versions.rs:136-152 | The instances: a two-byte character and `a` lose the `a`, and the character alone ends the program. |
| `Versions.BuiltinSplitVersion` | tvix/eval/src/builtins/mod.rs:811-825 | All that can be cut out of the runs, in order, or no answer if one cannot. |
| `Versions.CutAllExactly` | tvix/eval/src/builtins/mod.rs:811-825 | Splitting gives the runs as they are if and only if every word begins with a character of one byte. |
| `VersionOrder.PartsForCmp.Next` | tvix/eval/src/builtins/versions.rs:80-82 | What is yielded of the parts, and then one empty word. |
| `VersionOrder.BuiltinCompareVersions` | tvix/eval/src/builtins/mod.rs:164-176 | The sign of the lexicographic comparison of what both sides yield, for any texts; no answer exactly if the comparison comes to a part that cannot be cut out, or to two numbers of which one does not fit 64 bits. |
| `VersionOrder.TotalPreorder` | tvix/eval/src/builtins/versions.rs:20-43 | Main result. For any texts, `compareVersions` is antisymmetric in sign, also in whether it answers; equal and equally signed answers chain to an answer; and a version equals itself if and only if all its parts can be cut out and read. |
| `VersionOrder.Extension` | tvix/eval/src/builtins/versions.rs:70-82 | Main result. A version that can be read is below any extension by further parts whose first can be cut out, unless that is `pre`, in which case it is above; otherwise there is no answer. |
| `VersionOrder.DividedExtension` | tvix/eval/src/builtins/versions.rs:70-82 | The same for texts: `x` against `x`, a divider and more. |
| `VersionOrder.PartLaws` | tvix/eval/src/builtins/versions.rs:20-43 | The order of parts is total, antisymmetric in sign and transitive, with `pre` below everything. |
| `VersionOrder.StopsWhere` | tvix/eval/src/builtins/versions.rs:20-43 | There is no answer if and only if all parts are equal before two that cannot be cut out or read, one of two numbers not fitting 64 bits. |
| `VersionRules.RunThen` | tvix/eval/src/builtins/versions.rs:118-152 | Digits in a row are one number; all other characters but dots and dashes, underscores included, are one word. |
| `VersionRules.DividerThen` | tvix/eval/src/builtins/versions.rs:106-116 | Dots and dashes divide and are in no part. |
| `VersionRules.Dividers` | tvix/eval/src/builtins/versions.rs:6-8 | The instances: `2.3-pre` has three parts, `a_b` has one. |
| `VersionRules.NumbersAreDigits` | tvix/eval/src/builtins/versions.rs:118-134 | The numbers among the parts are digits, at least one. |
| `VersionRules.WidthIs` | tvix/eval/src/builtins/versions.rs:143 | A character is as wide as its UTF-8 encoding is long. |
| `VersionRules.ValueIsDecimal` | tvix/eval/src/builtins/versions.rs:23-29 | Digits stand for the sum of each digit times the power of ten of its place. |
| `VersionRules.NumbersDecide` | tvix/eval/src/builtins/versions.rs:22-29 | Main result. Where two numbers are the first parts that differ, the smaller number is in the smaller version; equal ones, leading zeros or not, leave it to what follows; one that does not fit 64 bits ends the program. |
| `VersionRules.NumberAboveWord` | tvix/eval/src/builtins/versions.rs:36-38 | A number is above every word, `pre` included. |
| `VersionRules.WordsDecide` | tvix/eval/src/builtins/versions.rs:31-40 | Main result. Of two words `pre` is in the smaller version, and otherwise the one that ends first or has the smaller character where they differ first. |
| `GenericClosure.IsNewKey` | tvix/eval/src/builtins/mod.rs:362-370 | Whether the key is new, as the first known key decides that is equal to it or cannot be compared. |
| `GenericClosure.TakeUp` | tvix/eval/src/builtins/mod.rs:372-384 | Taking up an item with a new key keeps what the loop promises. |
| `GenericClosure.BuiltinGenericClosure` | tvix/eval/src/builtins/mod.rs:344-387 | Main result. With a bound on what can be taken up, counting occurrences, the loop ends, as its iterations end, with at most so many results, and they are such a closure. |
| `GenericClosure.Skip` | tvix/eval/src/builtins/mod.rs:376-378 | Dropping an item whose key is known keeps what the loop promises. |
| `GenericClosure.FewResults` | tvix/eval/src/builtins/mod.rs:362-384 | Main result. If the keys of what can be met fall into finitely many classes within which keys are never found to differ, no more items than classes are taken up, so the loop ends. |
| `GenericClosure.FreshKeysAreFinite` | tvix/eval/src/builtins/mod.rs:362-370 | An operator that makes a new item with a new key thunk every time is within the terminating case: what counts is equality of keys, not their identity. |
| `GenericClosure.NewKeyMeans` | tvix/eval/src/builtins/mod.rs:362-370 | A key is new exactly if it is unequal to all keys so far. |
| `GenericClosure.IterationKeeps` | tvix/eval/src/builtins/mod.rs:372-384 | Every iteration keeps what the loop promises about results, worklist and what has been queued. |
| `GenericClosure.EndsWithClosure` | tvix/eval/src/builtins/mod.rs:344-387 | Main result. However many keys there are: whenever the loop ends with a list, the items have pairwise different keys, cover the start set and everything the operator yields on them, up to key, and were reached through earlier ones; it fails only if something does that it has met. |
| `GenericClosure.OddOnce` | tvix/eval/src/builtins/mod.rs:362-370 | An item whose key differs from itself is taken up once where the operator yields nothing. |
| `GenericClosure.OddForever` | tvix/eval/src/builtins/mod.rs:372-384 | Where the operator yields that item again, the loop goes on for good: after any number of iterations there are as many results. |
| `ClosureOrder.BreadthFirst` | tvix/eval/src/builtins/mod.rs:372-384 | Main result. The results are breadth first: the first items of each key, in their order, in the start set followed by what the operator yields on the first result, on the second, and so on. |
| `ClosureOrder.KeyIs` | tvix/eval/src/builtins/mod.rs:373-374 | The key of an item is its attribute `key`, as it is; without one the loop fails. |
| `ClosureOrder.NoKey` | tvix/eval/src/builtins/mod.rs:373-374 | What is no set has no key. |
| `ClosureOrder.KeysCompare` | tvix/eval/src/builtins/mod.rs:362-370 | Functions and NaN are never equal keys, a list at one address is, and a key that fails is an error. |
| `Layers.InsertEdges` | tools/nixery/layers/layers.go:212-228 | Adds the edges to all references but the one to itself, and the edge from the root for a big or popular closure. |
| `Layers.BuildGraph` | tools/nixery/layers/layers.go:231-286 | The nodes are the closures with their popularity; there is an edge exactly where a reference, a top-level reference, or being big or popular demands one, whatever the order in which the map is visited. Of several entries for one path the last one stands for the path. |
| `Layers.InsertAll` | tools/nixery/layers/layers.go:274-283 | The edges for the top-level references and for every closure, in whatever order the map is visited. |
| `Layers.EdgeIsWanted` | tools/nixery/layers/layers.go:212-228 | No edge without a reason. |
| `Layers.WantedIsEdge` | tools/nixery/layers/layers.go:212-228 | No reason without its edge. |
| `Dominators.ImmediateExists` | tools/nixery/layers/layers.go:319-325 | Every reachable node but the root has an immediate dominator: the tree the grouping starts from exists. |
| `Dominators.ImmediateUnique` | tools/nixery/layers/layers.go:319-325 | It has only one. |
| `Dominators.ClosedHoldsDominated` | tools/nixery/layers/layers.go:298-303 | Descending the tree from `r` meets everything that `r` dominates by paths. |
| `Dominators.TopExists` | tools/nixery/layers/layers.go:319-325 | Every reachable closure is dominated by a child of the root. |
| `Dominators.TopUnique` | tools/nixery/layers/layers.go:319-325 | It is dominated by only one of them. |
| `Dominators.EdgeFromRoot` | tools/nixery/layers/layers.go:213-218 | A node with an edge from the root is a child of the root in the tree. |
| `Dominators.TreeExists` | tools/nixery/layers/layers.go:319-325 | Every graph has a tree of immediate dominators. |
| `Dominators.TreeUnique` | tools/nixery/layers/layers.go:319-325 | It has only one. |
| `Grouping.GroupLayer` | tools/nixery/layers/layers.go:291-312 | Main result. The layer holds exactly the closures that every path from the top reaches through the root of the subtree, sorted; its rating is the popularity of that root times the plain sum of their sizes, modulo 2^64; and it is the same for every order in which the library lists children. |
| `Grouping.LayerHolds` | tools/nixery/layers/layers.go:288-312 | The same about the layer as a function of the nodes in it. |
| `Grouping.BigOrPopularHeads` | tools/nixery/layers/layers.go:191-210 | Main result. Every big or popular closure heads a layer of its own. |
| `Grouping.MoreChildren` | tools/nixery/layers/layers.go:298-303 | One iteration of the loop: the children of the next child are new, and everything found stays dominated by the root. |
| `Grouping.AllFound` | tools/nixery/layers/layers.go:298-303 | When the list is used up, it holds every dominated node once. |
| `Grouping.HasTree` | tools/nixery/layers/layers.go:319-325 | Every graph has a dominator tree with its lists of children, as the grouping takes it. |
| `Grouping.RatingIs` | tools/nixery/layers/layers.go:308-311 | The rating of a layer is the popularity of its head times the sum of the sizes, modulo 2^64. |
| `Merging.Partition` | tools/nixery/layers/layers.go:319-325 | Main result. Before merging, the layers together hold every reachable closure exactly once and nothing else. |
| `Merging.MergingConserves` | tools/nixery/layers/layers.go:157-161 | Folding layers into one keeps the sequence of all paths, and the total rating modulo 2^64. |
| `Merging.SqueezeMore` | tools/nixery/layers/layers.go:338-342 | One round of the merge loop folds one more layer into the first. |
| `Merging.MergeToBudget` | tools/nixery/layers/layers.go:338-342 | Over budget, the result has exactly the budget's number of layers: the first holds all the lower-rated ones, the `budget - 1` highest-rated are untouched. Within budget nothing changes. |
| `Merging.Dominate` | tools/nixery/layers/layers.go:319-345 | Main result. As many layers as there are children of the root, or as the budget allows; they are the children's layers in ascending order of rating, with those over the budget folded into the first, and the total of the ratings modulo 2^64 is that of the children's layers. |
| `Merging.GroupLayers` | tools/nixery/layers/layers.go:350-353 | Main result. From references to layers: at most the budget's number of layers, which hold every closure of the image exactly once, with the total rating that the layers have before merging, modulo 2^64. |
| `Merging.GroupTops` | tools/nixery/layers/layers.go:322-325 | One layer for each child of the root. |
| `Merging.SortByRatingSorts` | tools/nixery/layers/layers.go:327-329 | Ascending ratings, the same layers. |
| `Merging.LayersHoldImage` | tools/nixery/layers/layers.go:319-345 | Whatever is merged, the paths stay those of the image, each once. |
| `Merging.RatingsKept` | tools/nixery/layers/layers.go:327-342 | Sorting and merging keep the total of the ratings modulo 2^64. |
| `Merging.OrderOfChildren` | tools/nixery/layers/layers.go:319-345 | Main result. If the ratings of the root's children differ, the list of layers is the same for every order in which the library lists children. |
| `Merging.SameImageLayers` | tools/nixery/layers/layers.go:350-353 | The same for what `GroupLayers` returns. |
| `Ties.OneOutcomeExactly` | tools/nixery/layers/layers.go:319-345 | Main result. One list of layers can come out, whatever the order of children and of layers that tie, if and only if the ratings of the root's children all differ: two that tie show in the list even when both are merged into one layer. |
| `Ties.OneGroupingExactly` | tools/nixery/layers/layers.go:350-353 | Main result. The same for what `GroupLayers` can return for an image. |
| `Ties.ExchangeShows` | tools/nixery/layers/layers.go:157-161 | Two neighbouring layers that are exchanged change the list after any number of merges, as merged contents are not sorted again. |
| `LayerRules.PackageIs` | tools/nixery/layers/layers.go:176-182 | The name of a package is what stands behind the store directory, a hash of lower-case letters and digits, and the dash; any other path is its own name. |
| `LayerRules.PopularityIs` | tools/nixery/layers/layers.go:255-268 | The two packages of every image are the most popular; others have the popularity that is given, or 1. |
| `LayerRules.OutstandingHeads` | tools/nixery/layers/layers.go:194-225 | Main result. Closures above 100 MB, of popularity 100 or more, or of those two packages head layers of their own, told by sizes and store paths. |
| `LayerRules.EdgesAre` | tools/nixery/layers/layers.go:212-284 | The edges of the graph, told by the input alone. |
| `LayerRules.ByPopularityTimesSize` | tools/nixery/layers/layers.go:327-329 | Main result. Where nothing overflows, the layers are merged in the order of popularity times total size. |
| `SortedStrings.SortedUnique` | tools/nixery/layers/layers.go:305-306 | Sorted contents depend only on what is in the layer, which is what its hash is for. |
| `SortedStrings.FirstDifference` | tools/nixery/layers/layers.go:305-306 | Of two strings the one that ends first, or has the smaller character where they differ first, comes first. |
| `Upload.StepKeepsInv` | tools/nixery/builder/builder.go:406-465 | Every step of every thread, failures, late fills and crashes included, keeps the invariant and every layer. |
| `Upload.EntriesNameLayers` | tools/nixery/builder/builder.go:280-285 | Main result. In every interleaving, what is in the local cache, under `builds/` or returned by a call names an object under `layers/` with that hash and size; no layer is lost or changed. |
| `Upload.OneAtATime` | tools/nixery/builder/builder.go:406-412 | Main result. At most one thread at a time is between the lock and the unlock of a key, so between its cache check and its cache fill. |
| `Upload.SingleWriter` | tools/nixery/builder/builder.go:414-427 | Only a thread that holds the key changes what is staged under it. |
| `Upload.UploadedOnce` | tools/nixery/builder/builder.go:406-465 | Main result. After a key has been uploaded, no thread of that process starts another upload of it. |
| `Upload.NoDeadlock` | tools/nixery/builder/builder.go:406-412 | While a call is under way some thread can go on. |
| `Upload.StepExtends` | tools/nixery/builder/builder.go:440-447 | No step takes an object away from `layers/` or changes it. |
| `Upload.StepExclusive` | tools/nixery/builder/builder.go:407-408 | Every step keeps a key locked exactly while one thread is inside for it. |
| `Upload.StepSound` | tools/nixery/builder/cache.go:207-226 | Every step keeps objects stored under their own hash and builds naming such objects. |
| `Upload.CachesKnown` | tools/nixery/builder/cache.go:90-103 | What enters the local cache was cached, on its way there, in a build, or just uploaded. |
| `Upload.StaysSettled` | tools/nixery/builder/cache.go:167-170 | A key that is in the local cache and not being uploaded stays so until the process ends. |
| `CallOutcomes.CallsEndAsTold` | tools/nixery/builder/builder.go:406-457 | Main result. Over every run, each call is where the account of its own events says: failed exactly if one of its writes or moves has failed; returning an entry from a cache exactly if it has found one, and that one; uploaded with the hash and size of what it has written, the hash its writer has given, and the rating it was called with. |
| `CallOutcomes.CallsFromStart` | tools/nixery/builder/builder.go:406-457 | The same from the start of a process. |
| `CallOutcomes.AnswerStays` | tools/nixery/builder/builder.go:406-412 | A call that has its answer keeps it until it unlocks or the process dies. |
| `CallOutcomes.CachedIsReturned` | tools/nixery/builder/cache.go:167-205 | An entry in the local cache, or in a build that is read, is exactly what the call returns. |
| `CallOutcomes.UploadLeaves` | tools/nixery/builder/cache.go:207-226 | An upload leaves its entry in the local cache and, if that can be stored, without its rating under `builds/`. |
| `CallOutcomes.StoreShows` | tools/nixery/builder/builder.go:414-448 | What the bucket shows of an upload: its file while and after it is written, and where a move puts it; nothing else changes. |
| `CallOutcomes.OneFillEach` | tools/nixery/builder/cache.go:203 | Every build that is read from the bucket fills the local cache at most once. |
| `CallOutcomes.SurvivesCrash` | tools/nixery/builder/cache.go:167-205 | Main result. Whenever the process dies, a build in the bucket is what a call of the next one can return. |
| `CacheAgreement.ReliableRunsAgree` | tools/nixery/builder/cache.go:167-205 | As long as no readable build of a key is taken to be missing, local cache, late fills and bucket agree about that key, up to the rating, which is not written; other keys may be misread. |
| `CacheAgreement.LateFill` | tools/nixery/builder/cache.go:203-205 | The second way: after a false miss the upload is stored, cache and bucket agree again, and then the asynchronous fill of the old entry overwrites the new one. |
| `CacheAgreement.StepKeepsAgreement` | tools/nixery/builder/cache.go:167-226 | Every step but a false miss on the key keeps its local entry, late fills and build in agreement. |
| `CacheAgreement.StepAgreesExactly` | tools/nixery/builder/cache.go:167-205 | Main result. From agreement, a step leaves local cache and bucket in agreement about a key, however it goes on without another false miss, if and only if it does not take a readable build of that key to be missing. |
| `CacheAgreement.RunAgreesExactly` | tools/nixery/builder/cache.go:167-226 | Main result. A run keeps them in agreement about a key at every point, however it goes on from there, if and only if it takes no readable build of that key to be missing. |
| `CacheAgreement.AgreesExactly` | tools/nixery/builder/cache.go:167-226 | The same for every run of a process from its start over any bucket. |
| `CacheAgreement.FalseMissDisagrees` | tools/nixery/builder/cache.go:207-226 | The first way to disagree: after a false miss another layer is uploaded and cached, and its entry cannot be stored, so that the old build stays; no fill and no crash is needed. |
| `FalseMoves.HarmfulBreaks` | tools/nixery/storage/gcs.go:117-157 | A reported move of a layer that is not in the bucket, which has moved nothing and may have lost the staged object, lets the next step cache an entry that names nothing. |
| `FalseMoves.ActNamesExactly` | tools/nixery/storage/gcs.go:117-157 | A step, false moves with and without the deletion of the staged object among them, leaves all entries naming layers, however it goes on without another such move, if and only if it is no such move. |
| `FalseMoves.CourseNamesExactly` | tools/nixery/storage/gcs.go:117-157 | The same for every course of steps from a sound state. |
| `FalseMoves.NamesExactly` | tools/nixery/storage/gcs.go:117-157 | Main result. With a backend that may report false moves and delete what was staged, entries name stored layers throughout, however it goes on, if and only if every false move was of a layer that was in the bucket already. |
| `FalseMoves.FalseMoveLeaves` | tools/nixery/storage/gcs.go:117-157 | All that a false move does in the bucket is that it may lose what was staged. |
| `Popcount.Count` | tools/nixery/popcount/popcount.go:253-263 | The counts after one narinfo. |
| `Popcount.CountedAdds` | tools/nixery/popcount/popcount.go:253-263 | Each reference counts once more for every time it is listed; empty ones do not count. |
| `Popcount.DropOnes` | tools/nixery/popcount/popcount.go:265-270 | Exactly what is referenced once is dropped. |
| `Popcount.CountsAllFetched` | tools/nixery/popcount/popcount.go:234-263 | Main result. For every interleaving, every number of workers of at least one and every pattern of failures: when the collector ends, each item has been fetched or has failed, once, and the counts are the references of everything fetched. |
| `Popcount.NeverPanics` | tools/nixery/popcount/popcount.go:184-209 | Main result. In no reachable state can anybody send on a closed channel or close one twice, and the finaliser never meets a closed channel. |
| `Popcount.GoesOn` | tools/nixery/popcount/popcount.go:184-263 | Main result. Until the collector ends something can go on, exactly if there is at least one worker. |
| `Popcount.StepKeepsInv` | tools/nixery/popcount/popcount.go:184-263 | Every step keeps items and texts in one place each, and comes nearer to the end. |
| `Popcount.StepProgress` | tools/nixery/popcount/popcount.go:184-209 | No step panics, and every step leaves fewer to be made. |
| `Popcount.MentionsUnordered` | tools/nixery/popcount/popcount.go:253-263 | The counts do not depend on the order in which narinfos arrive. |
| `Popcount.StuckWithoutWorkers` | tools/nixery/popcount/popcount.go:200-209 | Without workers nothing ever happens: the finaliser and the collector wait for good. |
| `Popcount.EveryRunEnds` | tools/nixery/popcount/popcount.go:184-263 | Main result. Every run has at most 4 steps for an item, 3 for a worker and 4 more. |
| `Popcount.AtMostFiftyWait` | tools/nixery/popcount/popcount.go:245 | Never more than 50 texts wait, and a downloader that holds one goes on exactly if fewer do. |
| `Driver.CursorFiles.PersistCursor` | ops/journaldriver/src/main.rs:493-513 | Whatever fails, the cursor file holds its old contents or all of the cursor; an empty cursor is not saved. |
| `Driver.CursorFiles.Flush` | ops/journaldriver/src/main.rs:524-541 | Every entry is in one request, in order, in requests of at most 750, as few as that needs; the cursor is saved whatever becomes of them. |
| `Driver.Chunked` | ops/journaldriver/src/main.rs:531-538 | One request and what is left are what was left before. |
| `Delivery.AttemptedUpToCursor` | ops/journaldriver/src/main.rs:459-541 | Main result. With deaths after any step: the cursor file is absent or complete, and writing was attempted for every entry from where the last process without a file started up to the cursor; from the very first start, exactly if every later process that found no file started where the requests of the one before had ended. |
| `Delivery.CursorOnlyAdvances` | ops/journaldriver/src/main.rs:489-513 | The saved cursor never goes back. |
| `Delivery.LostEntry` | ops/journaldriver/src/main.rs:589-605 | A run that loses an entry: a process dies before its first cursor is saved, the next starts at the tail. |
| `Delivery.StepKeepsHistory` | ops/journaldriver/src/main.rs:459-541 | Every step keeps what was attempted in step with what was read. |
| `Delivery.StepKeepsCursor` | ops/journaldriver/src/main.rs:489-513 | Every step keeps the cursor file absent or complete, its entries attempted, and the cursor from going back. |
| `Delivery.StepKeepsPhase` | ops/journaldriver/src/main.rs:459-541 | Every step keeps buffer and requests contiguous, and the cursor at the last entry that was read. |
| `Delivery.FlushGoesThrough` | ops/journaldriver/src/main.rs:524-541 | Main result. A flush of any size can always be carried through: everything in it attempted, the cursor saved if there is one, and reading goes on. |
| `Delivery.Restarts` | ops/journaldriver/src/main.rs:589-640 | Main result. A process that is started again reads from its cursor on, with that entry or after it, and without a cursor file from the tail. |
| `Delivery.NeverStuck` | ops/journaldriver/src/main.rs:459-541 | Main result. From every reachable state, after any deaths, the entry that comes next after a restart can be read, written and saved. |

## Left out

- netencode: `u_u`, the borrowed twin of `t_t` with the same alternatives; the `dec` decoders and
  `pretty.rs`, which would only add easy members.
- netencode: the encoder ignores write errors in two places; the sinks of the model are in memory
  and cannot fail.
- netencode: lists and records drop what their items leave over, so nothing is claimed about
  the parser accepting canonical input only.
- Reader.ValueFromStream: the three ways to leave the process are outcomes; their messages are not
  modelled, and a stream is a finite list of deliveries.
- Tvix equality: forcing a thunk gives its value or an error; the machine code behind it, and what
  it may do to the machine before it returns, is not part of this model. A derivation without
  `outPath` is one more way to fail. After an error nothing is said about the stack.
- Tvix equality: attribute sets are given in the order of their keys; the comparison of
  leaves is a table with rounding of integers to doubles, and infinities are not among its numbers.
- Scope: the marks for finalisers and thunks, and the dynamic resolution of names in `with`, which
  is not lexical in this code.
- Scope: `compile_legacy_let` (tvix/eval/src/compiler/bindings.rs:658-668) is not thunked, so it can
  open a scope over an operand; that is outside the discipline of the model.
- ScopeContexts.Compiler.AccessIdentifier: globals that are not poisoned, and dynamic resolution
  in `with`, are not among its answers.
- Upvalues: the with-stack that a closure captures, and which instruction finalises what; a
  deferred value may be filled in at any time after its local has got one.
- ScopeContexts: contexts are values in a field that is reassigned; the separate count of upvalues
  is taken to be their number, and the value that a finished context leaves behind is arbitrary.
- Scope.Scope.EndScope: requires a local of a shallower depth, without which the code panics
  (tvix/eval/src/compiler/scope.rs:316).
- Chunk: constants, disassembly and the widths of its counters.
- Versions: a text is a sequence of Unicode scalar values with their widths in UTF-8, not bytes; texts
  compare by character, which is the order of their bytes. Each way to end the program is no answer.
- GenericClosure.BuiltinGenericClosure: requires a bound on what the loop can take up; without one
  the code may not end. What the loop does without a bound is stated about its iterations
  (`GenericClosure.EndsWithClosure`). The operator is a function of its argument.
- Layers: fetching popularity data, the hash of a layer, and input in which a reference has no
  entry, for which the graph library panics. Of several entries for one path, all but the last
  are in no layer, in the code and in the model.
- Merging.Dominate: a budget below 1 with more layers than that is excluded; the merge loop of
  the code then takes a second layer that is not there.
- Merging.Dominate: the order of layers with equal ratings is that of an insertion sort; nothing
  but ascending ratings is claimed, and `Ties` allows any order.
- Upload: manifests, several processes on one bucket at once, and tarball contents; the layer
  writer is any sequence of writes.
- Popcount: fetching and parsing of narinfos; a text that does not parse ends the program. The
  references of a text are a function of it.
- journaldriver: requests, tokens and timestamps; a request is an attempt that may fail. Entries
  removed from the journal behind the cursor, and power failures, are not modelled.
- Machine integers that only count (sizes of files, counters of references, indices) are
  unbounded; ratings and sizes of layers wrap at 2^64, lengths in netencode at the width of `usize`
  are errors.
