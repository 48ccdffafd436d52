# Distributed SQL expressions, RETURNING helper and the status protobuf codec

This project models three pieces of the CockroachDB server in Dafny and proves
properties of them.

- **The distributed-SQL expression serialiser** (`DistSQLExpression`, over
  the stand-in expression tree `Tree`). `MakeExpression` renders a typed
  expression as parsable text for a remote node:
  - every placeholder is replaced by the text of its value;
  - every indexed variable `i` becomes `@<i+1>`, or `@<map[i]+1>` when a remap
    table is supplied;
  - an unbound placeholder, or a negative or missing table entry, is fatal
    (Go's panic), modelled as an error result of its own kind.

  The proofs cover:
  - exactly when serialisation succeeds;
  - that the `@N` references read back out of the text are exactly the
    remapped ordinals, in order and as a set;
  - that table entries the expression does not reference do not matter;
  - that a nil table is the identity table.
- **The RETURNING helper** (`Returning`, class `ReturningHelper`). Construction:
  - dispatches on the clause kind;
  - rejects aggregates and window functions before rendering anything;
  - appends each target's columns and expressions in order.

  `CookResultRow` either passes the row through and counts it (only when the
  expression list is nil), or installs the row as the current source row and
  evaluates every expression in order, stopping at the first error. The
  helper's fields are updated in place. Its object identity stands in for the
  address stability that `noCopy` enforces.
- **The generated protobuf codec of `StoreStatus` and `NodeStatus`**
  (`Varint`, `Keys`, `SkipField`, `StatusMessages`, `StatusMarshal`,
  `StatusDecoding`, `StatusUnmarshal`). The wire format is given as
  functions: base-128 varints, tags, length-delimited records, map entries
  and the two messages. `Size`, `MarshalTo` and `encodeVarintStatus` are
  methods that write into a byte `array` with an advancing index. `Unmarshal`
  and `skipStatus` are loops over the input with a moving index, each proved
  equal to a decoding function. On top of that:
  - `StatusMessageRoundTrip` proves that unmarshalling what `Marshal` writes
    gives the message back;
  - `StatusDecodeErrors` proves the decoder's error cases;
  - `StatusFindings` models the places where the generated index arithmetic
    wraps (see "## Findings").

The planner functions that `returning.go` calls are foreign to it:
- `computeRenderAllowingStars`;
- `AssertNoAggregationOrWindowing`;
- `newSourceInfoForSingleTable`.

They are given one concrete behaviour here:
- a column name resolves to the first table column of that name;
- `*` expands to the visible columns in table order;
- aggregate and window calls are recognised syntactically.

The tree library's `FormatNode`, `Placeholder.Eval`, `Datum.Format` and
`TypedExpr.Eval` are stood in by `Tree`: a four-node expression datatype
(indexed variable, placeholder, constant, binary operator) with a printer that
consults the two interceptors.

Go's fixed-width integers are written out where they matter:
- `int64(u)`, `int32(u)` and `uint64(x)` are `ToInt64`, `ToInt32` and
  `ToUint64`;
- Go `int` addition, which can wrap, is `GoAddInt`;
- `uint64` values are a subset type below 2^64;
- the decode loop's `acc |= (b & 0x7F) << shift` adds each group modulo
  2^64, since every group lands above the bits read so far;
- where a map entry ORs a varint into a key or value that may already hold
  bits, the OR is `BitOr`.

## Model

| member | source | states |
|---|---|---|
| Tree.EvalPlaceholder | pkg/sql/distsqlplan/expression.go:38 | evaluating a placeholder succeeds exactly when the context binds it |
| Tree.FmtPlaceholderFormat | pkg/sql/distsqlplan/expression.go:35-43 | installs the placeholder interceptor and keeps the indexed-variable interceptor of the base flags |
| Tree.FmtIndexedVarFormat | pkg/sql/distsqlplan/expression.go:49-53 | installs the indexed-variable interceptor and keeps the placeholder interceptor of the base flags |
| Tree.FormatDatumHasNoMarker | pkg/sql/distsqlplan/expression.go:42 | a formatted value contains neither `@` nor `$`, so a substituted placeholder is never read as a column reference or a placeholder |
| Tree.Decimal | pkg/sql/distsqlplan/expression.go:52 | `%d` of a natural is a non-empty string of decimal digits |
| DistSQLExpression.PlaceholderInterceptor | pkg/sql/distsqlplan/expression.go:37-43 | the placeholder renders exactly when it is bound; otherwise the result is the fatal "failed to serialize placeholder" carrying the evaluation error |
| DistSQLExpression.VarFormatOf | pkg/sql/distsqlplan/expression.go:48-85 | variable `i` is printed by the `@<i+1>` interceptor without a table and by the remapping interceptor with one |
| DistSQLExpression.PlaceholderFormatOf | pkg/sql/distsqlplan/expression.go:34-43 | with or without a table, a placeholder is printed by the placeholder interceptor |
| DistSQLExpression.MakeExpression | pkg/sql/distsqlplan/expression.go:67-69 | a nil expression gives the empty wire expression whatever the context and the table |
| DistSQLExpression.FormatNodeOkIff | pkg/sql/distsqlplan/expression.go:71-88 | formatting succeeds if and only if every placeholder is bound and, with a table, every referenced variable has an entry that is present and not negative |
| DistSQLExpression.MakeExpressionOkIff | pkg/sql/distsqlplan/expression.go:64-93 | `MakeExpression` of a present expression returns normally if and only if the same two conditions hold |
| DistSQLExpression.UnmappedIndexIsFatal | pkg/sql/distsqlplan/expression.go:79-82 | a referenced variable with a negative table entry makes serialisation fatal |
| DistSQLExpression.UnboundPlaceholderIsFatal | pkg/sql/distsqlplan/expression.go:37-41 | an unbound placeholder makes serialisation fatal, with or without a table |
| DistSQLExpression.DecimalValue | pkg/sql/distsqlplan/expression.go:52 | the digits `%d` prints read back as the number |
| DistSQLExpression.VarRefsOfReference | pkg/sql/distsqlplan/expression.go:83 | the text `@<n>` reads back as the single reference `n` |
| DistSQLExpression.VarRefsAppend | pkg/sql/distsqlplan/expression.go:87-88 | the references in concatenated text are those of each part, when the second part does not continue a number |
| DistSQLExpression.VarRefsSkipsPlainText | pkg/sql/distsqlplan/expression.go:87-88 | text without `@` in front of other text adds no reference |
| DistSQLExpression.BinaryTextRefs | pkg/sql/distsqlplan/expression.go:88 | the references in a printed binary expression are the left operand's, then the right operand's, and the operator text adds no placeholder marker |
| DistSQLExpression.VarTextRefs | pkg/sql/distsqlplan/expression.go:76-85 | a printed variable is mapped and reads back as its wire ordinal plus one, with no placeholder marker |
| DistSQLExpression.FormatNodeRefs | pkg/sql/distsqlplan/expression.go:87-88 | successfully formatted text holds, in order, the wire ordinals plus one of the expression's variables, and no placeholder survives |
| DistSQLExpression.WireTextReferences | pkg/sql/distsqlplan/expression.go:64-93 | the wire expression's `@N` references are, in order, `map[i]+1` (or `i+1` without a table) for the variables of the expression, and no `$` placeholder remains |
| DistSQLExpression.WireTextReferenceSet | pkg/sql/distsqlplan/expression.go:76-85 | the set of `@N` references equals `{map[i]+1 \| i referenced}`, or `{i+1}` without a table |
| DistSQLExpression.FormatNodeIgnoresUnreferencedEntries | pkg/sql/distsqlplan/expression.go:78-83 | two tables that agree on the referenced variables format the expression identically |
| DistSQLExpression.MakeExpressionIgnoresUnreferencedEntries | pkg/sql/distsqlplan/expression.go:76-86 | the wire expression depends on the table only at referenced indices |
| DistSQLExpression.IdentityMap | pkg/sql/distsqlplan/expression.go:73-86 | the table that maps each index below `n` to itself |
| DistSQLExpression.FormatNodeNoMapIsIdentity | pkg/sql/distsqlplan/expression.go:73-86 | formatting without a table is formatting with the identity table |
| DistSQLExpression.NoMapIsIdentityMap | pkg/sql/distsqlplan/expression.go:73-86 | `MakeExpression` without a table equals `MakeExpression` with the identity table |
| DistSQLExpression.RemapExample | pkg/sql/distsqlplan/expression.go:76-84 | `@1 + @2` with the table `[2, 5]` becomes `(@3 + @6)`; without a table it stays `(@1 + @2)` |
| Returning.ResultColumnsFromColDescs | pkg/sql/returning.go:83 | one result column per table column, with the same name, type and hiddenness |
| Returning.AssertNoAggregationOrWindowing | pkg/sql/returning.go:74-76 | the check passes if and only if the expression has no aggregate and no window call; aggregation is reported first |
| Returning.CheckTargets | pkg/sql/returning.go:73-79 | passes if and only if every target passes; otherwise the error of the first target that fails |
| Returning.CheckAllTargets | pkg/sql/returning.go:73-79 | the loop over the targets returns what `CheckTargets` specifies |
| Returning.CheckTargetsPrefix | pkg/sql/returning.go:73-79 | once a prefix of the targets fails the check, the whole list fails with the same error |
| Returning.FindColumn | pkg/sql/returning.go:88-90 | the first column of the given name, or none when no column has it |
| Returning.Resolve | pkg/sql/returning.go:86-90 | a resolved expression only uses variables below the number of source columns |
| Returning.VisibleOrdinals | pkg/sql/returning.go:88-90 | the visible columns at or after `k`, each once, in increasing order |
| Returning.ComputeRender | pkg/sql/returning.go:88-93 | a rendered target's columns and expressions match in number and type and address only source columns; a non-star target renders one column |
| Returning.RenderAll | pkg/sql/returning.go:87-96 | succeeds if and only if every target renders; otherwise the error of the first target that fails; the outputs match in number and type |
| Returning.RenderTargets | pkg/sql/returning.go:87-96 | the appending loop computes `RenderAll` |
| Returning.RenderAllPrefix | pkg/sql/returning.go:87-93 | once a prefix of the targets fails to render, the whole list fails with the same error |
| Returning.RenderAllSnoc | pkg/sql/returning.go:94-95 | rendering one more target appends its columns and expressions |
| Returning.PlanReturning | pkg/sql/returning.go:53-98 | a built helper's columns and expressions match in number and type, and every variable is below `len(tablecols)` |
| Returning.NewReturningHelper | pkg/sql/returning.go:53-98 | returns no helper and the error on failure; a fresh helper with nil expressions and no columns for `RETURNING NOTHING` or no clause; otherwise a fresh valid helper holding the planned columns, expressions and source, with a zero count |
| Returning.AggregationRejected | pkg/sql/returning.go:73-79 | a target with an aggregate or a window call makes construction fail |
| Returning.PlanConcatenatesTargets | pkg/sql/returning.go:94-95 | the plan of `ts + [t]` is the plan of `ts` followed by the rendering of `t` |
| Returning.EmptyReturningList | pkg/sql/returning.go:81-85 | an explicit empty list plans to empty (non-nil) expressions, which evaluate to an empty row |
| Returning.EvalRow | pkg/sql/returning.go:108-115 | the row has one value per expression, each that expression's value; it succeeds if and only if every expression evaluates; otherwise the error of the first one that fails |
| Returning.EvalRowPrefixError | pkg/sql/returning.go:110-113 | once a prefix of the expressions fails, the row fails with the same error, so later expressions do not matter |
| Returning.EvalRowSnoc | pkg/sql/returning.go:109-114 | one more expression appends its value to the row |
| Returning.ReturningHelper.constructor | pkg/sql/returning.go:60-62 | every field at its zero value |
| Returning.ReturningHelper.CookResultRow | pkg/sql/returning.go:102-117 | with nil expressions: returns the row itself and adds exactly one to the count; otherwise it installs the row as the source row, returns `EvalRow` of the expressions on it and leaves the count alone; columns, expressions and source never change |
| Returning.ReturningHelper.IndexedVarEval | pkg/sql/returning.go:120-122 | the value of variable `idx` is the current source row's entry `idx` |
| Returning.ReturningHelper.IndexedVarResolvedType | pkg/sql/returning.go:125-127 | the type of variable `idx` is the type of source column `idx` |
| Returning.ReturningHelper.IndexedVarFormat | pkg/sql/returning.go:130-132 | a variable prints as column `idx`'s name, which resolves back to `idx` exactly when no earlier column has that name, and otherwise to an earlier column |
| Returning.PassThroughScenario | pkg/sql/returning.go:103-108 | `RETURNING NOTHING` passes two rows through and counts 2; an explicit empty list gives empty rows and counts nothing |
| Returning.ScenarioRender | pkg/sql/returning.go:87-96 | `RETURNING *, a * 2, $1` over `(a, b, hidden rowid)` renders to four columns and expressions |
| Returning.ScenarioPlan | pkg/sql/returning.go:53-98 | the same clause plans to columns `a, b, ?column?, ?column?` |
| Returning.ScenarioRow | pkg/sql/returning.go:107-116 | the scenario's expressions on row `(10, 20, 99)` with `$1 = true` give `(10, 20, 20, true)` |
| Returning.CookScenario | pkg/sql/returning.go:102-117 | constructing the scenario's helper and cooking one row gives that row and those column names |
| Varint.ToInt64 | pkg/server/status/status.pb.go:382-388 | two's-complement reading of 64 bits: not negative if and only if below 2^63, and congruent to the bits |
| Varint.ToInt32 | pkg/server/status/status.pb.go:359 | the low 32 bits read in two's complement |
| Varint.ToUint64 | pkg/server/status/status.pb.go:157 | sign extension to 64 bits, the identity on non-negative values |
| Varint.GoAddInt | pkg/server/status/status.pb.go:390 | Go `int` addition of two non-negative ints: the sum when it is below 2^63, negative otherwise |
| Varint.GoAddIntWraps | pkg/server/status/status.pb.go:390 | a sum between 2^63 and 2^64 wraps to exactly 2^64 below itself |
| Varint.Int64RoundTrip | pkg/server/status/status.pb.go:154-163 | an `int64` written as `uint64` reads back as itself |
| Varint.Int32RoundTrip | pkg/server/status/status.pb.go:238-245 | an `int32` written as `uint64` reads back as itself |
| Varint.BitOr | pkg/server/status/status.pb.go:354 | OR with zero is the identity |
| Varint.BitOrBound | pkg/server/status/status.pb.go:354 | the OR of two values below `2^n` is below `2^n` |
| Varint.EncodeVarint | pkg/server/status/status.pb.go:251-259 | the encoding of `v` is `sovStatus(v)` bytes long |
| Varint.EncodeVarintShape | pkg/server/status/status.pb.go:251-259 | every byte but the last has `0x80` set, and the last is below `0x80` |
| Varint.Sov | pkg/server/status/status.pb.go:326-335 | at least one, and one exactly when `v < 128` |
| Varint.SovBound | pkg/server/status/status.pb.go:326-335 | `v < 2^(7 sov(v))` |
| Varint.SovIsLeast | pkg/server/status/status.pb.go:326-335 | no `n >= 1` with `v < 2^(7n)` is smaller than `sov(v)` |
| Varint.SovMinimal | pkg/server/status/status.pb.go:326-335 | `v` needs all of its `sov(v)` groups: `2^(7(sov(v)-1)) <= v` when more than one |
| Varint.SovAtMostTen | pkg/server/status/status.pb.go:326-335 | a 64-bit value takes at most ten bytes |
| Varint.SovStatus | pkg/server/status/status.pb.go:326-335 | the shifting loop computes `sov` |
| Varint.ZigzagOfSigned | pkg/server/status/status.pb.go:336-338 | the zigzag map sends the signed reading `s` to `2s` or `-2s-1` |
| Varint.SozStatus | pkg/server/status/status.pb.go:336-338 | `sozStatus` is `sov` of the zigzag value, and 1 exactly for signed values in `[-64, 64)` |
| Varint.EncodeVarintStatus | pkg/server/status/status.pb.go:251-259 | writes exactly the encoding of `v` at `offset`, returns `offset + sov(v)`, and leaves the rest of the buffer alone |
| Varint.VarintLoop | pkg/server/status/status.pb.go:345-358 | a successful read ends after its start and within the input |
| Varint.ReadVarintAt | pkg/server/status/status.pb.go:345-358 | a successful read from a fresh accumulator consumes at least one byte of the input |
| Varint.ReadVarint | pkg/server/status/status.pb.go:344-358 | the inlined decode loop computes `ReadVarintAt` |
| Varint.VarintLoopRoundTrip | pkg/server/status/status.pb.go:345-358 | the loop on the encoding of `v`, from any shift and accumulator below it, adds `v << shift` and consumes `sov(v)` bytes |
| Varint.VarintRoundTrip | pkg/server/status/status.pb.go:345-358 | the decode loop on `encodeVarintStatus`'s output gives back `v` and consumes `sov(v)` bytes |
| Varint.VarintLoopOverflow | pkg/server/status/status.pb.go:346-347 | ten continuation bytes fail with the integer-overflow error |
| Varint.VarintLoopEOF | pkg/server/status/status.pb.go:349-350 | input that ends on continuation bytes fails with `io.ErrUnexpectedEOF` |
| Varint.LittleEndianRoundTrip | pkg/server/status/status.pb.go:116 | `n` little-endian bytes of `v < 256^n` read back as `v` |
| Varint.Fixed64RoundTrip | pkg/server/status/status.pb.go:478 | the eight bytes `PutUint64` writes read back as the value |
| Keys.LexLessIsStrictTotalOrder | pkg/server/status/status.pb.go:103 | bytewise lexicographic order is irreflexive, transitive and total |
| Keys.IntLessIsStrictTotalOrder | pkg/server/status/status.pb.go:233 | `<` on integers is a strict total order |
| Keys.Sorted | pkg/server/status/status.pb.go:99-103 | the keys of a set, strictly increasing, each exactly once |
| Keys.SortedUnique | pkg/server/status/status.pb.go:103 | two strictly sorted sequences of the same keys are equal, so the encoder's key order is determined |
| Keys.SortedCharacterization | pkg/server/status/status.pb.go:103 | a sequence is `Sorted(S)` if and only if it is strictly sorted with the keys of `S` |
| Keys.SortedSumRemove | pkg/server/status/status.pb.go:289-296 | a sum over the sorted keys can take any key first, so `Size`'s map order does not matter |
| Keys.CollectKeys | pkg/server/status/status.pb.go:99-102 | collects every key of the map exactly once |
| Keys.InsertSorted | pkg/server/status/status.pb.go:103 | inserting a new key keeps the sequence strictly sorted and adds just that key |
| Keys.SortKeys | pkg/server/status/status.pb.go:103 | sorting distinct keys gives `Sorted` of them |
| StatusMessages.StringLessIsStrictTotalOrder | pkg/server/status/status.pb.go:103 | Go's string order is a strict total order |
| StatusMessages.Int32LessIsStrictTotalOrder | pkg/server/status/status.pb.go:233 | Go's `int32` order is a strict total order |
| StatusMessages.SortedNames | pkg/server/status/status.pb.go:99-103 | the metric names, strictly increasing, each once |
| StatusMessages.SortedIds | pkg/server/status/status.pb.go:229-233 | the node ids, strictly increasing, each once |
| StatusMessages.SortedNamesRemove | pkg/server/status/status.pb.go:265-271 | whichever metric `Size` visits first, the total is the same |
| StatusMessages.SortedIdsRemove | pkg/server/status/status.pb.go:315-321 | whichever latency `Size` visits first, the total is the same |
| StatusMessages.EncodeNodeLength | pkg/server/status/status.pb.go:276-324 | a node's encoding is as long as the sum of its fields' encodings |
| StatusMessages.JoinLength | pkg/server/status/status.pb.go:297-313 | a repeated field's encoding is as long as the sum of its elements' encodings |
| StatusMessages.MetricEntryLength | pkg/server/status/status.pb.go:108 | a metric entry takes `1 + len(k) + sov(len(k)) + 1 + 8` bytes |
| StatusMessages.LatencyEntryLength | pkg/server/status/status.pb.go:238 | a latency entry takes `1 + sov(uint64(k)) + 1 + sov(uint64(v))` bytes |
| StatusMessages.LengthDelimitedLength | pkg/server/status/status.pb.go:305-306 | a length-delimited field takes `1 + l + sov(l)` bytes |
| StatusMarshal.PutVarintField | pkg/server/status/status.pb.go:155-157 | writes the tag and the varint of the value; the buffer from the returned index on is unchanged |
| StatusMarshal.PutFixed64Field | pkg/server/status/status.pb.go:114-117 | writes the tag and the eight little-endian bytes of the value; the buffer from the returned index on is unchanged |
| StatusMarshal.PutLengthDelimited | pkg/server/status/status.pb.go:198-211 | writes the tag, the length as a varint and the bytes; the buffer from the returned index on is unchanged |
| StatusMarshal.PutMetricEntry | pkg/server/status/status.pb.go:110-117 | writes the entry of one metric: the name as field 1, the value bits as fixed64 field 2; the buffer from the returned index on is unchanged |
| StatusMarshal.PutMetricField | pkg/server/status/status.pb.go:105-117 | writes one metric's entry as a length-delimited field under the given tag; the buffer from the returned index on is unchanged |
| StatusMarshal.PutLatencyEntry | pkg/server/status/status.pb.go:240-245 | writes the entry of one latency: the node id and the nanoseconds as varint fields 1 and 2; the buffer from the returned index on is unchanged |
| StatusMarshal.PutLatencyField | pkg/server/status/status.pb.go:235-245 | writes one latency's entry as length-delimited field 9; the buffer from the returned index on is unchanged |
| StatusMarshal.SortedMetricKeys | pkg/server/status/status.pb.go:99-103 | the collected and sorted names are the names in increasing order |
| StatusMarshal.SortedLatencyKeys | pkg/server/status/status.pb.go:229-233 | the collected and sorted ids are the ids in increasing order |
| StatusMarshal.PutMetrics | pkg/server/status/status.pb.go:98-119 | writes one entry per metric, in increasing order of the names; the buffer from the returned index on is unchanged |
| StatusMarshal.PutLatencies | pkg/server/status/status.pb.go:228-247 | writes one entry per latency, in increasing order of the node ids; the buffer from the returned index on is unchanged |
| StatusMarshal.PutStrings | pkg/server/status/status.pb.go:198-212 | writes one length-delimited field per string, in order; the buffer from the returned index on is unchanged |
| StatusMarshal.MetricFieldSize | pkg/server/status/status.pb.go:269-270 | one metric's share of `Size` is the length of its field |
| StatusMarshal.LatencyFieldSize | pkg/server/status/status.pb.go:319-320 | one latency's share of `Size` is the length of its field |
| StatusMarshal.MetricsSize | pkg/server/status/status.pb.go:265-272 | the metrics' share of `Size`, summed in any map order, is the length of their encoding |
| StatusMarshal.LatenciesSize | pkg/server/status/status.pb.go:315-322 | the latencies' share of `Size`, summed in any map order, is the length of their encoding |
| StatusMarshal.StringsSize | pkg/server/status/status.pb.go:303-308 | each string adds `1 + l + sov(l)`, which totals the length of the repeated field |
| StatusMarshal.StoreSize | pkg/server/status/status.pb.go:260-274 | `StoreStatus.Size` is the length of the store's encoding |
| StatusMarshal.StoresSize | pkg/server/status/status.pb.go:297-302 | the stores' share of `Size` is the length of their fields |
| StatusMarshal.NodeHeaderSize | pkg/server/status/status.pb.go:279-288 | the two descriptors and the non-zero timestamps add the lengths of their fields |
| StatusMarshal.NodeSize | pkg/server/status/status.pb.go:276-324 | `NodeStatus.Size` is the length of the node's encoding |
| StatusMarshal.StoreMarshalTo | pkg/server/status/status.pb.go:85-121 | writes exactly the store's encoding at the offset and returns the index after it; the buffer from the returned index on is unchanged |
| StatusMarshal.PutStoreField | pkg/server/status/status.pb.go:187-196 | writes one store as length-delimited field 6 holding its own encoding; the buffer from the returned index on is unchanged |
| StatusMarshal.PutStores | pkg/server/status/status.pb.go:186-197 | writes the stores' fields, in order; the buffer from the returned index on is unchanged |
| StatusMarshal.PutNonZero | pkg/server/status/status.pb.go:154-163 | writes a timestamp field only when the value is not zero; the buffer from the returned index on is unchanged |
| StatusMarshal.NodeMarshalTo | pkg/server/status/status.pb.go:133-249 | writes exactly the node's encoding, its nine fields in order, and returns the index after it; the buffer from the returned index on is unchanged |
| StatusMarshal.StoreMarshal | pkg/server/status/status.pb.go:75-83 | a buffer of `Size()` bytes, filled by `MarshalTo`, is exactly the store's encoding |
| StatusMarshal.NodeMarshal | pkg/server/status/status.pb.go:123-131 | a buffer of `Size()` bytes, filled by `MarshalTo`, is exactly the node's encoding |
| StatusDecoding.ReadLength | pkg/server/status/status.pb.go:372-393 | an accepted length prefix bounds bytes that lie inside the input |
| StatusDecoding.DecodeBytes | pkg/server/status/status.pb.go:368-393 | an accepted length-delimited field bounds bytes inside the input |
| StatusDecoding.DecodeInt64 | pkg/server/status/status.pb.go:608-626 | an accepted timestamp ends within the input |
| StatusDecoding.SkipUnknown | pkg/server/status/status.pb.go:498-510 | an unknown field is stepped over to a later index no further than the limit |
| StatusDecoding.OrInt32 | pkg/server/status/status.pb.go:894 | ORing a varint's bits into a zero `int32` gives its low 32 bits in two's complement |
| StatusDecoding.OrInt64 | pkg/server/status/status.pb.go:909 | ORing a varint's bits into a zero `int64` gives the signed reading of the 64 bits |
| StatusDecoding.ReadTag | pkg/server/status/status.pb.go:343-366 | an accepted tag has a positive field number and a wire type other than 4 |
| StatusDecoding.DecodeStoreField | pkg/server/status/status.pb.go:367-511 | each decoded store field moves the index forward within the input |
| StatusDecoding.DecodeNodeField | pkg/server/status/status.pb.go:547-944 | each decoded node field moves the index forward within the input |
| StatusDecoding.DecodeMetric | pkg/server/status/status.pb.go:398-497 | a decoded metric entry ends within the input |
| StatusDecoding.DecodeLatency | pkg/server/status/status.pb.go:835-930 | a decoded latency entry ends within the input |
| StatusUnmarshal.ReadTagStatus | pkg/server/status/status.pb.go:343-366 | the tag loop and its checks compute `ReadTag` |
| StatusUnmarshal.ReadLengthStatus | pkg/server/status/status.pb.go:372-393 | the length loop and its checks compute `ReadLength` |
| StatusUnmarshal.ReadBytesStatus | pkg/server/status/status.pb.go:368-393 | computes `DecodeBytes` |
| StatusUnmarshal.ReadInt64Status | pkg/server/status/status.pb.go:608-626 | computes `DecodeInt64` |
| StatusUnmarshal.SkipUnknownStatus | pkg/server/status/status.pb.go:498-510 | computes `SkipUnknown` |
| StatusUnmarshal.MetricEntryStatus | pkg/server/status/status.pb.go:429-495 | the entry loop computes the metric entry's key and value |
| StatusUnmarshal.LatencyEntryStatus | pkg/server/status/status.pb.go:866-928 | the entry loop computes the latency entry's key and value |
| StatusUnmarshal.ReadMetricStatus | pkg/server/status/status.pb.go:398-497 | computes `DecodeMetric` |
| StatusUnmarshal.ReadLatencyStatus | pkg/server/status/status.pb.go:835-930 | computes `DecodeLatency` |
| StatusUnmarshal.StoreFieldStatus | pkg/server/status/status.pb.go:367-511 | the store's `switch` computes `DecodeStoreField` |
| StatusUnmarshal.UnmarshalStoreStatus | pkg/server/status/status.pb.go:339-518 | `StoreStatus.Unmarshal` computes `UnmarshalStore` |
| StatusUnmarshal.NodeScalarStatus | pkg/server/status/status.pb.go:548-645 | fields 1 to 4 of the node's `switch` compute `DecodeNodeField` |
| StatusUnmarshal.NodeRepeatedStatus | pkg/server/status/status.pb.go:646-930 | fields 5 to 9 of the node's `switch` compute `DecodeNodeField` |
| StatusUnmarshal.NodeFieldStatus | pkg/server/status/status.pb.go:547-944 | the node's `switch` computes `DecodeNodeField` |
| StatusUnmarshal.UnmarshalNodeStatus | pkg/server/status/status.pb.go:519-951 | `NodeStatus.Unmarshal` computes `UnmarshalNode` |
| SkipField.Skip | pkg/server/status/status.pb.go:952-1050 | a successful skip never reports zero bytes |
| SkipField.SkipGroup | pkg/server/status/status.pb.go:1011-1039 | a skipped group ends after its start and within the input |
| SkipField.SkipStatus | pkg/server/status/status.pb.go:952-1050 | `skipStatus` with its loops computes `Skip` |
| SkipField.SkipGroupStatus | pkg/server/status/status.pb.go:1012-1038 | the group loop computes `SkipGroup` |
| SkipProofs.SkipVarintField | pkg/server/status/status.pb.go:973-986 | a varint field is skipped past its tag and its varint |
| SkipProofs.SkipFixedField | pkg/server/status/status.pb.go:987-989 | a fixed field is skipped past its tag and eight (or, for wire type 5, four) bytes |
| SkipProofs.SkipBytesField | pkg/server/status/status.pb.go:990-1010 | a length-delimited field is skipped past its tag, its length prefix and its payload |
| SkipProofs.SkipEndGroupTag | pkg/server/status/status.pb.go:1040-1041 | an end-group tag on its own consumes only the tag |
| SkipProofs.SkipEmptyGroup | pkg/server/status/status.pb.go:1011-1039 | a start tag directly followed by an end tag is skipped whole |
| SkipProofs.SkipGroupInnerField | pkg/server/status/status.pb.go:1033-1037 | the group loop continues after an inner field from where that field's skip ends |
| SkipProofs.SkipIllegalWireType | pkg/server/status/status.pb.go:1045-1046 | wire types 6 and 7 are the "illegal wireType" error |
| SkipProofs.SkipNegativeLength | pkg/server/status/status.pb.go:1006-1009 | a length of 2^63 or more is `ErrInvalidLengthStatus` |
| SkipProofs.SkipUnterminatedGroup | pkg/server/status/status.pb.go:1019-1020 | a group whose start tag ends the input is `io.ErrUnexpectedEOF` |
| StatusRoundTrip.ReadTagAt | pkg/server/status/status.pb.go:343-366 | a one-byte tag of a known field reads back as its field number and wire type |
| StatusRoundTrip.LengthPrefixAt | pkg/server/status/status.pb.go:372-393 | a length prefix followed by its payload bounds exactly that payload |
| StatusRoundTrip.MetricEntryRoundTrip | pkg/server/status/status.pb.go:429-495 | the bytes of a metric entry decode to its name and value bits |
| StatusRoundTrip.LatencyEntryRoundTrip | pkg/server/status/status.pb.go:866-928 | the bytes of a latency entry decode to its node id and nanoseconds |
| StatusMessageRoundTrip.PutAllEntries | pkg/server/status/status.pb.go:496 | decoding entries into a map gives each decoded key its value and leaves the other keys as they were |
| StatusMessageRoundTrip.StoreMetricsAt | pkg/server/status/status.pb.go:398-497 | a store's metric fields, decoded in order, put each metric into the map |
| StatusMessageRoundTrip.StoreRoundTrip | pkg/server/status/status.pb.go:339-518 | `StoreStatus.Unmarshal` of what `StoreStatus.Marshal` writes is the store |
| StatusMessageRoundTrip.NodeStartedAtAt | pkg/server/status/status.pb.go:608-626 | a start time is written only when not zero and then read back into the node |
| StatusMessageRoundTrip.NodeUpdatedAtAt | pkg/server/status/status.pb.go:627-645 | an update time is written only when not zero and then read back into the node |
| StatusMessageRoundTrip.NodeMetricsAt | pkg/server/status/status.pb.go:646-745 | a node's metric fields, decoded in order, put each metric into the map |
| StatusMessageRoundTrip.NodeStoresAt | pkg/server/status/status.pb.go:746-776 | a node's store fields, decoded in order, append each store decoded from its own bytes |
| StatusMessageRoundTrip.NodeArgsAt | pkg/server/status/status.pb.go:777-805 | a node's argument fields, decoded in order, append each argument |
| StatusMessageRoundTrip.NodeEnvsAt | pkg/server/status/status.pb.go:806-834 | a node's environment fields, decoded in order, append each variable |
| StatusMessageRoundTrip.NodeLatenciesAt | pkg/server/status/status.pb.go:835-930 | a node's latency fields, decoded in order, put each latency into the map |
| StatusMessageRoundTrip.NodeRoundTrip | pkg/server/status/status.pb.go:519-951 | `NodeStatus.Unmarshal` of what `NodeStatus.Marshal` writes is the node |
| StatusDecodeErrors.EndGroupTagRejected | pkg/server/status/status.pb.go:361-363 | a tag of wire type 4 is "wiretype end group for non-group" in both messages |
| StatusDecodeErrors.FieldZeroRejected | pkg/server/status/status.pb.go:364-366 | a tag for field number 0 is an illegal tag in both messages |
| StatusDecodeErrors.WrappedFieldNumberRejected | pkg/server/status/status.pb.go:359-366 | a tag whose field number is negative as an `int32` is an illegal tag |
| StatusDecodeErrors.DescWrongWireType | pkg/server/status/status.pb.go:368-371 | a descriptor sent as a varint is a wrong wire type for field 1 |
| StatusDecodeErrors.StartedAtWrongWireType | pkg/server/status/status.pb.go:608-611 | a start time sent as bytes is a wrong wire type for field 3 |
| StatusDecodeErrors.LengthPastEnd | pkg/server/status/status.pb.go:390-393 | a length that runs past the end of the input is `io.ErrUnexpectedEOF` |
| StatusDecodeErrors.LengthNegative | pkg/server/status/status.pb.go:387-389 | a length of 2^63 or more is `ErrInvalidLengthStatus` |
| StatusDecodeErrors.DescPastEnd | pkg/server/status/status.pb.go:390-393 | a descriptor that runs past the end fails both messages with `io.ErrUnexpectedEOF` |
| StatusDecodeErrors.DescNegativeLength | pkg/server/status/status.pb.go:387-389 | a descriptor length of 2^63 or more fails both messages as an invalid length |
| StatusDecodeErrors.TruncatedTag | pkg/server/status/status.pb.go:349-350 | input that stops inside a tag is `io.ErrUnexpectedEOF` in both messages |
| StatusDecodeErrors.StoreSkipsUnknown | pkg/server/status/status.pb.go:498-510 | a field numbered 3 or more is stepped over and leaves the store as it was |
| StatusDecodeErrors.StoreSkipsUnknownVarint | pkg/server/status/status.pb.go:498-510 | an unknown varint field is stepped over and leaves the store as it was |
| StatusDecodeErrors.UnknownVarintSkipped | pkg/server/status/status.pb.go:498-510 | the `default:` case steps over a one-byte-tagged varint field exactly |
| StatusDecodeErrors.UnknownBytesSkipped | pkg/server/status/status.pb.go:498-510 | the `default:` case steps over a one-byte-tagged length-delimited field exactly |
| StatusDecodeErrors.NodeSkipsUnknownBytes | pkg/server/status/status.pb.go:931-943 | an unknown length-delimited field is stepped over and leaves the node as it was |
| StatusFindings.ReadLengthAsWritten | pkg/server/status/status.pb.go:372-393 | the generated length check lets through an end index no greater than the input length, which may be negative |
| StatusFindings.LengthChecksAgree | pkg/server/status/status.pb.go:387-393 | where the sum does not wrap, the generated check and the corrected one agree |
| StatusFindings.LengthWrapPassesChecks | pkg/server/status/status.pb.go:390-394 | a length whose end wraps passes the generated checks with backwards slice bounds; the corrected check reports `io.ErrUnexpectedEOF` |
| StatusFindings.WrappedDescLength | pkg/server/status/status.pb.go:390-394 | on `0x0a` followed by the varint 2^63-1, `postIndex` is `9 - 2^63`; as corrected, both messages fail with `io.ErrUnexpectedEOF` |
| StatusFindings.GroupNextIndexAsWritten | pkg/server/status/status.pb.go:1033-1037 | the generated group loop moves `iNdEx` to `start + next` as a Go `int` sum, unchecked, and never back to `start` |
| StatusFindings.WrappedSkip | pkg/server/status/status.pb.go:1006-1010 | a length-delimited field whose end wraps makes `skipStatus` return a negative count |
| StatusFindings.GroupSkipWraps | pkg/server/status/status.pb.go:1033-1037 | inside a group that negative count sends the generated loop to a negative index; the corrected loop refuses it as an invalid length |
| StatusFindings.WrappedGroupLength | pkg/server/status/status.pb.go:1033-1037 | on `0x1b 0x0a` followed by the varint 2^63-1, the generated loop goes on at `10 - 2^63`; as corrected, the store fails with `ErrInvalidLengthStatus` |
| StatusFindings.GroupRefusesNegativeSkip | pkg/server/status/status.pb.go:1033-1037 | the corrected group loop refuses an inner skip that came back negative |
| StatusFindings.LongSkip | pkg/server/status/status.pb.go:990-1010 | a length-delimited field whose end does not wrap makes `skipStatus` return the field's whole length, however close to 2^63 |
| StatusFindings.WrappedGroupEnd | pkg/server/status/status.pb.go:1033-1037 | on `0x1b 0x1a` followed by the varint 2^63-11, the inner skip is 2^63-1 and the generated loop goes on at `-2^63`; as corrected, the store fails with `io.ErrUnexpectedEOF` |
| StatusFindings.SkipUnknownAsWritten | pkg/server/status/status.pb.go:498-510 | the generated `default:` case lets through a next index no greater than the limit, which may be negative |
| StatusFindings.SkipChecksAgree | pkg/server/status/status.pb.go:498-510 | where `iNdEx + skippy` does not wrap, the generated `default:` case and the corrected one agree |
| StatusFindings.WrappedUnknownField | pkg/server/status/status.pb.go:498-510 | on `0x18 0x00 0x1a` followed by the varint 2^63-11, `iNdEx + skippy` is `1 - 2^63`; as corrected, the store fails with `io.ErrUnexpectedEOF` |

## Left out

- `log.V` / `log.Infof` in `MakeExpression` (pkg/sql/distsqlplan/expression.go:89-91): a logging side effect with no effect on the result.
- The real `tree` library:
  - `FormatNode`, `Placeholder.Eval`, `Datum.Format` and `TypedExpr.Eval` are foreign. A four-node expression type with integer and boolean values stands in for them.
  - Operators and values beyond that type are not modelled.
- Serialisation not modifying the expression or the table holds by construction: `MakeExpression` is a function of values.
- The container argument of the indexed-variable interceptor is ignored by both interceptors. It is not a parameter of the model.
- The planner calls `computeRenderAllowingStars`, `AssertNoAggregationOrWindowing`, `newSourceInfoForSingleTable` and `FormatVar` (pkg/sql/returning.go:74, 82, 88, 131) are foreign. They are fixed to one concrete behaviour, so the model does not cover every planner:
  - names resolve to the first column of that name;
  - `*` expands to the visible columns;
  - aggregate and window calls are recognised syntactically.
- The `default:` panic of `newReturningHelper` (pkg/sql/returning.go:69-70) is the error `UnexpectedReturningClause`, since a panic cannot be returned.
- The planner `p`, the context and the desired types passed to `newReturningHelper` are not modelled. Only the table columns and the clause are inputs.
- `Returning.ReturningHelper.CookResultRow` returns the row's value, not the same slice: Dafny sequences have no identity, so "no copy" is not expressible. The model does keep that the result equals the input.
- A Go panic on an out-of-range `curSourceRow[idx]` or `sourceColumns[idx]` is a precondition of the accessors (`idx` within the row or the columns). The planner never hands out other indices: `Returning.PlanReturning` proves every variable is below the number of columns.
- `Reset`, `String`, `ProtoMessage`, `Descriptor`, the `init` registrations and the gzipped file descriptor (pkg/server/status/status.pb.go:46-74, 1057-1093) are reflection boilerplate.
- `Desc` and `BuildInfo` are held as opaque byte strings:
  - their own `Size`, `MarshalTo` and `Unmarshal` belong to other message types that are not part of this model;
  - writing them copies their bytes;
  - reading them merges by appending, which is how repeated occurrences of an embedded message combine on the wire;
  - an error from their own `Unmarshal` is not modelled.
- Metric values are float64 in Go (pkg/server/status/status.pb.go:116, 480). The model keeps them as the 64-bit patterns `Float64bits` gives, with no float arithmetic.
- A nil map and an empty map are the same Dafny map. `Unmarshal`'s `make` of a map on first use is therefore invisible.
- The messages are values, and `Unmarshal(m, data)` returns the merged message:
  - in Go, the receiver is updated in place;
  - in Go, a failed `Unmarshal` leaves a partly merged receiver;
  - the model returns only the error and drops that partial state.
- Slices like `dAtA[i:]` passed to `MarshalTo` and `skipStatus` are modelled as an offset into one buffer, or as the sub-sequence.
- `Size`, `MarshalTo` and `Marshal` compute with Go `int`. The model does not capture their overflow for messages of 2^63 bytes or more.
- `DistSQLExpression.MakeExpression`: prints `idx+1` and `remappedIdx+1` (pkg/sql/distsqlplan/expression.go:52, 83) with unbounded integers. Go adds them as 64-bit `int`s, so an index or table entry equal to 2^63-1 prints as `@-9223372036854775808` in Go. The model does not capture that wrap. `DistSQLExpression.WireTextReferences` and `DistSQLExpression.WireTextReferenceSet` ("the references are `map[i]+1`") therefore hold for Go only when every referenced index and table entry is below 2^63-1.
- `StatusDecoding.ReadTag`: the decode errors abstract Go's error text. `ErrIllegalTag` and `ErrEndGroupForNonGroup` do not carry the message name that Go puts in the text ("proto: StoreStatus: illegal tag …" at pkg/server/status/status.pb.go:365, "proto: NodeStatus: …" at :545). Lemmas that state one error "in both messages" therefore equate two Go errors that differ only in that name.
- Every decoded byte string is assumed shorter than 2^63 (`GoBytes`), as any Go slice is.
- The final `if iNdEx > l` of both `Unmarshal` functions (pkg/server/status/status.pb.go:514-516, 947-949) can never fire: each step is proved to stay within the input. The decoding functions therefore have no such branch.
- `SkipField.SkipGroup`: refuses an inner skip that came back negative, where the generated loop goes on from a negative index. It also checks `start + next > l` on unbounded integers, where a positive `next` with `start + next >= 2^63` wraps in Go and the next pass panics (both in "## Findings").
- `StatusDecoding.SkipUnknown`: checks `iNdEx + skippy > l` (or `> postIndex` in a map entry) on unbounded integers, where Go wraps a sum of 2^63 or more into the negatives, lets it pass, and panics on the next tag read (pkg/server/status/status.pb.go:490, 507, 738, 923, 940; see "## Findings").
- `StatusDecoding.ReadLength`: checks `start + length > l` on unbounded integers, where the generated code lets a wrapped sum through (see "## Findings").
- `scrub_test.go` is an integration test against a running server, and is not part of this model.

## Findings

| source | as written | input that shows it | evidently intended | confidence | as-written member | corrected member |
|---|---|---|---|---|---|---|
| pkg/server/status/status.pb.go:390-394 | `postIndex := iNdEx + msglen` is added as Go `int`s. A `msglen` just below 2^63 wraps the sum negative, which passes `postIndex > l`, and `dAtA[iNdEx:postIndex]` then panics with bounds out of range (the same pattern recurs for every length-delimited field of both messages) | `0x0a` followed by the nine-byte varint of 2^63-1 (`ff ff ff ff ff ff ff ff 7f`), given to `StoreStatus.Unmarshal` or `NodeStatus.Unmarshal` | a length that runs past the end of the input is `io.ErrUnexpectedEOF` | not executed | StatusFindings.ReadLengthAsWritten (shown by StatusFindings.WrappedDescLength) | StatusDecoding.ReadLength |
| pkg/server/status/status.pb.go:1033-1037 | inside a group, `iNdEx = start + next` takes `next` from `skipStatus` unchecked. An inner length-delimited field whose end wraps makes `next` negative, and the next pass indexes `dAtA[iNdEx]` at a negative index and panics | `0x1b 0x0a` followed by the varint of 2^63-1, given to `StoreStatus.Unmarshal` (field 3 is unknown and is skipped as a group) | a negative skip is refused with `ErrInvalidLengthStatus`, as the callers of `skipStatus` refuse it | not executed | StatusFindings.GroupNextIndexAsWritten (shown by StatusFindings.WrappedGroupLength) | SkipField.SkipGroup |
| pkg/server/status/status.pb.go:1033-1037 | the same `iNdEx = start + next` with a positive `next`: an inner field whose skip is 2^63-1 does not wrap inside `skipStatus`, but `start + next` does, to `-2^63`, and the next pass indexes `dAtA[iNdEx]` and panics | `0x1b 0x1a` followed by the varint of 2^63-11 (`f5 ff ff ff ff ff ff ff 7f`), given to `StoreStatus.Unmarshal` | a group that runs past the end of the input is `io.ErrUnexpectedEOF` | not executed | StatusFindings.GroupNextIndexAsWritten (shown by StatusFindings.WrappedGroupEnd) | SkipField.SkipGroup |
| pkg/server/status/status.pb.go:498-510 | in the `default:` case, `iNdEx + skippy` is added as Go `int`s. A `skippy` of 2^63-1 after an index of 2 wraps the sum negative, which passes `> l`, and the next tag read `dAtA[iNdEx]` panics (the same pattern recurs at lines 490, 738, 923 and 940) | `0x18 0x00` (an unknown varint field), then `0x1a` followed by the varint of 2^63-11, given to `StoreStatus.Unmarshal` | a skipped field that runs past the end of the input is `io.ErrUnexpectedEOF` | not executed | StatusFindings.SkipUnknownAsWritten (shown by StatusFindings.WrappedUnknownField) | StatusDecoding.SkipUnknown |
