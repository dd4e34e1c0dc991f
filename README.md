# Mesos master-state collector, modelled in Dafny

This project models the master-state collector of `mesos_exporter`, written in Go. Each scrape
takes the `/state` snapshot of a Mesos master and uses it to refresh Prometheus metrics:

- Nineteen fixed gauges. Twelve are per slave: cpus, memory, disk and port counts of the
  total, used and unreserved pools. Seven are per framework: active, plus used and offered
  cpu, memory and disk.
- An optional `slave_attributes` counter. It carries one row per slave, labelled with the
  slave's allow-listed attributes.

The gauges are fed by port ranges that the master reports as text such as
`"[31000-32000, 40000-40010]"`. The decoder for that text and the port-counting `size` are part
of the model.

The project has these modules:

- `GoText` (`text.dfy`): the Go library pieces the decoder relies on. These are `bytes.Trim`,
  `bytes.TrimSpace`, `bytes.Split`, `bytes.SplitN(…, 2)` and `strconv.ParseUint(s, 10, 64)`.
- `Ranges` (`ranges.dfy`): the `ranges` type, `UnmarshalJSON` and `size`.
- `MasterState` (`state.dfy`): the decoded snapshot (slaves, frameworks, resources).
- `Gauges` (`gauges.dfy`): a gauge vector as a class over a label-values → value map, with
  `Reset` and `Set`. It also holds the generic reset-then-populate extraction that every
  fixed gauge performs.
- `SlaveAttributes` (`attributes.dfy`): how the per-slave label map is built, the settable
  counter vector, and the counter's extraction, which never resets.
- `MasterCollector` (`collector.dfy`): the registry of nineteen gauges, the optional counter,
  the per-gauge value conversions and `Collect`.

Each loop in the Go code becomes a method with a loop. The method is proved equal to a
specification function, and lemmas state the properties of that function.

`UnmarshalJSON` works on a `*ranges` receiver. The model's method takes the slice the receiver
holds on entry and returns the slice it holds on return.

## Model

| member | source | states |
|---|---|---|
| GoText.Trim | master_state.go:325 | Trimming by a cutset never lengthens the input. The result is empty exactly when every character of the input is in the cutset; otherwise it starts and ends with a character outside the cutset. |
| GoText.TrimShape | master_state.go:325 | Trimming removes only cut characters and only from the two ends: the input is an all-cut prefix, then the result, then an all-cut suffix. |
| GoText.TrimSpace | master_state.go:336-341 | `bytes.TrimSpace` never lengthens the input. The result is empty exactly when the input is all white space; otherwise it starts and ends with a non-space character. |
| GoText.TrimSpaceShape | master_state.go:336-341 | `bytes.TrimSpace` removes only white space and only from the two ends: the input is an all-space prefix, then the result, then an all-space suffix. |
| GoText.TrimKeeps | master_state.go:336-341 | A character outside the cutset always survives trimming. |
| GoText.Split | master_state.go:330 | Splitting on a separator gives at least one piece. No piece contains the separator. Joining the pieces with the separator gives back the input. |
| GoText.SplitFirst | master_state.go:331-334 | There is no result exactly when the separator is absent. Otherwise the first part has no separator, and first part + separator + rest equals the input. |
| GoText.ParseUintSpec | master_state.go:336-344 | `ParseUint(s, 10, 64)` succeeds exactly on non-empty all-digit text whose value is at most 2^64−1, and returns that value. Empty text is a syntax error. An oversized digit string is a range error. At the first non-digit the error is a syntax error, unless the digits before it already overflow, which gives a range error. |
| Ranges.ParseRangeSpec | master_state.go:331-346 | A token without `-` is a "bad range" carrying the token. A token parses exactly when the space-trimmed texts on both sides of its first `-` are decimal uint64s. The pair is then their two values. The low bound is parsed first: if it fails, its `NumError` is returned whatever the high bound holds. A failing high bound gives its own `NumError` only after a good low bound. |
| Ranges.ExtraDashRejected | master_state.go:331-344 | Only the first `-` splits. A second `-` (as in `1-2-3`) makes the token fail. |
| Ranges.ParseAllSpec | master_state.go:330-347 | Token parsing stops at the first failure. The values are those of the leading tokens that parse, in order. The error is the first failing token's error. There is no error exactly when every token parsed. |
| Ranges.AppendParsed | master_state.go:329-347 | The token loop appends each parsed pair right away. It returns the receiver plus the pairs of the parsed prefix, and the first error. |
| Ranges.UnmarshalJSON | master_state.go:324-350 | The new receiver is the old one followed by the decoded pairs. Nothing is replaced, and the pairs before a failing token stay appended. The error is the decode's error. |
| Ranges.DecodeNothing | master_state.go:325-327 | The decode appends nothing and returns no error exactly when the input consists only of `[`, `]` and `"`. |
| Ranges.DecodeWellFormed | master_state.go:330-346 | When every token is a well-formed `lo-hi`, the decode gives no error and one pair per token, in input order. Each bound is the decimal value of its trimmed text. |
| Ranges.DecodeStopsAtFirstError | master_state.go:330-346 | If token k is the first that fails, the decode yields exactly the pairs of tokens 0..k−1 and token k's error. |
| Ranges.DecodePair | master_state.go:324-350 | `lo-hi` with decimal uint64 bounds decodes to the single pair of their values, with no error. |
| Ranges.DecodeTwoPairs | master_state.go:324-350 | Two such pairs joined by a comma decode to both pairs, in input order, with no error. |
| Ranges.DecodeTrailingComma | master_state.go:330-334 | A comma after a pair leaves an empty last token. The pair is still decoded, and the empty token is a "bad range" carrying "". |
| Ranges.DecodeNoDash | master_state.go:331-334 | A single token without `-` is a "bad range" carrying the whole token, and nothing is decoded. |
| Ranges.DecodeEmptyHigh | master_state.go:336-344 | In `lo-` the good low bound is parsed, then the empty high bound fails with `ParseUint`'s syntax error on "". Nothing is decoded. |
| Ranges.DecodeEmptyExamples | master_state.go:325-327 | `""` and `[""]` decode to nothing, without error. |
| Ranges.DecodeOnePairExample | master_state.go:324-350 | `5-5` decodes to the pair (5, 5). |
| Ranges.DecodeTwoPairsExample | master_state.go:324-350 | `0-3,10-12` decodes to (0, 3) then (10, 12). |
| Ranges.DecodeTrailingCommaExample | master_state.go:330-334 | `1-2,` decodes to (1, 2), and then fails with a "bad range" on "". |
| Ranges.DecodeNoDashExample | master_state.go:331-334 | `abc` is a "bad range" carrying `abc`. |
| Ranges.DecodeEmptyHighExample | master_state.go:336-344 | `5-` fails with a syntax error on the empty high bound. |
| Ranges.Size | master_state.go:352-358 | The wrapping uint64 loop returns (Σ (hi − lo + 1)) mod 2^64 over the pairs. |
| Ranges.WrappingStep | master_state.go:355 | One step `sz += 1 + (hi - lo)` in uint64 adds the pair's exact width modulo 2^64. |
| Ranges.SizeAppend | master_state.go:352-358 | `size` is additive over concatenation, modulo 2^64. |
| Ranges.SizeExamples | master_state.go:352-358 | Sample sizes: a single port gives 1, `31000-32000` gives 1001, and `0-3,10-12` gives 7. The overlapping `0-3,2-5` gives 8, counting the overlap twice. The full uint64 range wraps to 0, and the reversed pair `5-3` wraps to 2^64−1. |
| Ranges.TotalCountsPorts | master_state.go:352-358 | For disjoint, well-formed pairs, the unwrapped size is the number of distinct ports they name. |
| Gauges.GaugeVec.Reset | master_state.go:60 | `Reset` removes every series. |
| Gauges.GaugeVec.Set | master_state.go:61-62 | `WithLabelValues(...).Set(v)` creates or overwrites exactly one series. |
| Gauges.Extract | master_state.go:59-64 | A closure that resets the gauge and then sets one value per entity leaves the gauge equal to `Populate` of the snapshot. |
| Gauges.PopulateKeys | master_state.go:59-64 | After extraction the series keys are exactly the snapshot entities' keys. Series of entities that are gone disappear, and an empty snapshot leaves no series. |
| Gauges.PopulateLastWins | master_state.go:59-64 | When entities share a key, the series holds the value of the last of them. |
| Gauges.PopulateValues | master_state.go:59-64 | Every series holds the value of some entity with that key. |
| SlaveAttributes.NormaliseLabelList | master_state.go:273 | The normalised allow-list has one entry per allow-listed name: that name normalised, in order. |
| SlaveAttributes.BuildSlaveLabels | master_state.go:278-293 | The loops that build the label map compute `SlaveLabels`. |
| SlaveAttributes.SlaveLabelsKeys | master_state.go:278-293 | A slave's label map has exactly the keys `slave` and the allow-listed labels. `hostname` is never assigned unless it is allow-listed. |
| SlaveAttributes.SlaveLabelsValues | master_state.go:278-293 | Every allow-listed label is present and holds either "" or the string of an attribute that normalises to it. `slave` is always present, and holds the PID when `slave` is not allow-listed. |
| SlaveAttributes.SlaveLabelOf | master_state.go:283-293 | An allow-listed label holds the string of the last attribute that normalises to it and reads as a string. If there is no such attribute, it holds "". |
| SlaveAttributes.SlavePidBlanked | master_state.go:278-285 | When `slave` is itself allow-listed and no string attribute normalises to it, the defaults loop blanks it and the PID is lost: the label is "". |
| SlaveAttributes.CounterVec.Set | master_state.go:294 | `Set(1, ...)` creates or overwrites exactly one row. |
| SlaveAttributes.ExtractAttributes | master_state.go:276-296 | The counter closure lays one row per slave, each with value 1, over the existing rows, without any reset. |
| SlaveAttributes.AttributeRowsSpec | master_state.go:276-296 | After a pass the rows are the old rows plus one row per slave. Every slave's row is 1, and rows of slaves absent from the snapshot are kept unchanged. |
| MasterCollector.RegistryCovers | master_state.go:53-270 | The registry has 19 gauges: one per slave pool × {cpus, mem, disk, ports} and one per framework quantity. |
| MasterCollector.RegistryDistinct | master_state.go:53-270 | No closure is registered twice. Slave gauges are in subsystem `slave` and framework gauges in `framework`. |
| MasterCollector.RunExtractor | master_state.go:54-269 | Each of the nineteen closures leaves its gauge equal to `Expected` of the snapshot. |
| MasterCollector.ExpectedKeys | master_state.go:59-64 | A slave gauge's keys are exactly the snapshot's `(pid, hostname)` pairs, and a framework gauge's keys exactly its framework names. |
| MasterCollector.SlaveGaugeValue | master_state.go:59-187 | A slave's series holds cpus unchanged, mem and disk × 1024, and its port count as `(Σ widths) mod 2^64`. |
| MasterCollector.FrameworkGaugeValue | master_state.go:194-268 | A framework's series holds 1 if it is active and 0 otherwise, or its used/offered cpu, mem and disk unchanged. |
| MasterCollector.Collector.constructor | master_state.go:49-303 | The constructor builds the nineteen empty gauges. The attribute counter exists exactly when the allow-list is non-empty. It is named `slave_attributes` and labelled `slave`, `hostname` and the normalised allow-list. |
| MasterCollector.Collector.Collect | master_state.go:305-314 | A scrape replaces every gauge by its closure's result on the snapshot. The counter gains a row of 1 per slave and keeps its older rows. |
| MasterCollector.OneSlaveScenario | master_state.go:59-164 | A slave `s1`/`h1` with 4 cpus, 1024 mem and ports `31000-32000` reports 4, 1048576 and 1001. |
| MasterCollector.RackScenario | master_state.go:278-293 | With allow-list `rack` and one attribute that reads as the string `r1`, the label map is `slave = s1, rack = r1`. |

## Left out

- The fetch and decode of `/state` (master_state.go:308) is not modelled. `Collect` takes the
  decoded snapshot as a parameter. The fetch's error is ignored in the code, so a failed fetch
  scrapes whatever the snapshot variable holds (the zero state when nothing was decoded). With
  an empty snapshot every gauge ends up empty.
- Emitting samples to the Prometheus channel (`c.Collect(ch)`) and `Describe` are not modelled.
  A gauge vector is only its map of series.
- Overlapping scrapes that run concurrently on the shared vectors are not modelled.
- Float64 rounding is not modelled: values are exact `real`s. Multiplying by 1024 is exact in
  float64 when it does not overflow. `float64(size)` rounds above 2^53, which the model does
  not capture.
- `normaliseLabel`, `attributeString`, `getLabelValuesFromMap`, `counter` and
  `settableCounterVec` are defined in files that are not part of this model.
  - The first three are fields of a `Helpers` value passed in. Every property holds for any
    functions supplied there.
  - `settableCounterVec` is modelled as a row map with `Set`.
  - `stringInSlice` is list membership, and `normaliseLabelList` maps `normaliseLabel` over the
    list.
  - The counter's namespace comes from `counter` and is not modelled.
- Go map iteration order is not modelled as such. The order in which the attribute map is
  visited is a parameter: the attribute sequence. The order in which `Collect` visits the
  metrics map is fixed to registry order. Each closure touches only its own vector, so the
  result does not depend on that order.
- The range text is modelled as characters rather than bytes, and invalid UTF-8 is not modelled.
  The cut characters `[`, `]`, `"`, `,` and `-` are ASCII, so decoding agrees with the byte
  version. `TrimSpace` uses Go's `unicode.IsSpace` set.
- The unused `Tasks` and `Completed` fields of a framework, and the logging, are not modelled.
- Decoding of the outer JSON document (other than the port-range text) is not modelled. The
  same goes for the decoding of attribute values, which is `attributeString`.
- Points where the code differs from a plain reading of the decoder's intent:
  - A failing token leaves the pairs of earlier tokens appended to the receiver.
  - `lo <= hi` is never checked, so a reversed pair makes `size` wrap (see
    `Ranges.SizeExamples`).
  - The `hostname` label of the attribute counter is never assigned in the label map.
  - An allow-listed label that normalises to `slave` is set to "" by the defaults loop, which
    overwrites the PID (see `SlaveAttributes.SlavePidBlanked`).

  The model follows the code on all four.
