# Verified model of the TOON codec core

TOON is a line-oriented text format for the values of a dynamic language: dictionaries, lists and scalars, with
uniform lists of dictionaries written as tables. This project models the core of the `msgspec_toon` codec in Dafny and
proves what it is for:

- **decoding**: the line scanner, the header grammar with nested field groups, the recursive structural parser that
  emits events, the untyped consumer that builds values from them, and the typed consumer, a stack of frames over a
  compiled type plan;
- **encoding**: the discovery of tabular shapes, the canonical writers of entries, arrays, tables, keyed tables and
  list items, quoting, escaping and number layout;
- **planning**: the compiler from inspected types to the plan graph, and the row memo that replays key lookups.

## How it is laid out

Each module follows one component. Code that changes state is imperative here too: `Scan.Scanner` and `Scan.Lines`,
the methods of `Parser`, `Encoder`, `Cells`, `Header` and `Escapes`, `Output.Writer`, `Untyped.Consumer`,
`TypedConsumer.Consumer`, `RowMemo.Resolver` and `PlanGraph.GraphCompiler`. Each of these methods is proved to do
exactly what a function says: the scanner delivers `Scan.LinesOf`, the parser emits the events of the tree
`Grammar.Document`, the encoder appends the lines of `Render.RootLines`, the typed consumer takes the steps of
`TypedMachine.Step`. The theorems are then about these functions. What the functions themselves mean is said by the
law modules: a relation between trees and lines, a reference form of the written text, and for each kind of token,
line, header, scalar and plan the bytes and numbers it stands for.

| layer | modules |
|---|---|
| bytes and tokens | `Bytes`, `Utf8`, `Faults`, `Tokens`, `Scalar`, `Escapes`, `Cells` |
| decoding | `Scan`, `Header`, `HeaderDepth`, `Events`, `Grammar`, `Parser`, `StrictMode`, `StrictTrees`, `Values`, `Untyped` |
| encoding | `Output`, `Quoting`, `QuoteDecision`, `Shapes`, `Render`, `Encoder`, `EncoderLimit`, `CanonicalFloats` |
| reading back what was written | `Layout`, `ReadScalars`, `ReadGroups`, `ReadHeaders`, `ReadRows`, `Faithful`, `ReadEntries`, `ReadLeaves`, `ReadBack`, `WrittenLines`, `RoundTrip`, `Reach`, `Stability`, `StableText` |
| typed decoding | `ExactIntegers`, `Plans`, `TypedMachine`, `TypedTrees`, `TypedProof`, `TypedConsumer`, `RowMemo`, `RowReplay`, `ListReplay`, `ListExample`, `PlanGraph` |
| the codec as a whole | `Codec`, `Extremes` |
| laws that spell out, with literal bytes and bounds, what the functions above compute | `Unicode`, `TokenLaws`, `LineLaws`, `HeaderLaws`, `RowLaws`, `Outline`, `OutlineReads`, `OutlineTells`, `Refusals`, `Dictionaries`, `PlainStrings`, `Canonical`, `NumberLaws`, `ScalarLaws`, `ContainerLaws`, `StructLaws` |

## Main results

1. `Codec.RoundTrips`: in either mode, decoding an encoded value gives that value back, for every value, delimiter and
   indent width, **if and only if** conditions hold that can be read off the value (`Faithful.RootReturns`): no long
   unquoted entry string ends in a space; no root string starts with a byte-order mark it is not quoted for; no table
   header nests more than 256 groups; no unquoted root string or list item is claimed by the header grammar, which
   strict mode does with every bracket behind the first byte and lenient mode only where a length in brackets is
   followed by more than 256 nested braces; and its lines lie at most 256 levels deep (`Reach.RootReach`). What comes
   back is `Faithful.Norm` of the value: the same value, with table rows in the key order of their header
   (`Stability.NormIsSame`). For each condition a lemma gives a concrete value that does not come back
   (`Codec.BracketStringIsLost` and its neighbours, `Extremes.DeepHeaderIsLost`, `Extremes.DeepGroupIsLost`).
   Encoding itself succeeds if and only if a level computed from the value is at most 256 (`Codec.EncodeSucceeds`).
2. `Codec.ByteStability`: encoding what was decoded, in either mode, gives the very same bytes **if and only if** that
   level, computed with the rows of tables in the order of their header, is at most 256, and gives no document
   otherwise. Values that nest at most 256 deep always meet the condition; `Extremes.OrderCanMatter` gives a value
   that is written, comes back, and is then not written.
3. `StrictMode.StrictIsRestriction`: what strict mode accepts, lenient mode reads as the same tree at the same
   positions; `StrictTrees.StrictDocumentIsStrict`: declared lengths are met and keys are distinct.
4. `TypedProof.MachineIsConversion`: fed with the events of any tree, the frame stack ends with exactly the value of a
   recursive conversion and fails exactly when that fails, with the same fault.
5. `RowReplay.TabularReplayIsPlain`: in a tabular array the memo answers every key of every row as the plan does.
   `ListReplay.ListReplayIsPlain`: in an array of structs written as a list it does so **if and only if** every row's
   lookups answer to those of the first row (`ListReplay.ListAnswers`). `ListExample.ListReplayCanBeWrong` runs a
   document of two rows, with an optional struct inside, whose last row comes out with `x` and `y` exchanged.
6. `PlanGraph.CompilePlan`, `PlanGraph.CyclePassesStruct`, `PlanGraph.CompiledIsValid`: a compiled graph pictures its
   types, its cycles pass through structs, the runtime's check of wrapper chains never objects, and each refusal names
   what in the types caused it (`PlanGraph.Blamed`). `PlanGraph.CompileNative`: each node of the native graph is the
   one its type calls for (`PlanGraph.Stands`).
7. `OutlineTells.DocumentMeans`: in either mode a document means a tree **if and only if** the tree stands on all of
   its lines (`Outline.DocumentOn`, a relation that reads no line ahead), so that strict mode takes no row, item or
   entry of an array behind a blank line. `Refusals` gives code and position of the fault for the line that does not
   fit, with `LineLaws`, `HeaderLaws`, `RowLaws` and `TokenLaws` for what stands on a line.
8. `Codec.EncodesCanonically`: a value is written, if it is written, as one text that only the value decides:
   `Canonical.DocumentForm`, which says when an array is a table, when entries are a keyed table, and by
   `PlainStrings.Plain` exactly which strings and keys stay without quotes.
9. `ScalarLaws.ExactCategory`, `ScalarLaws.UnionDecides`, `ContainerLaws.ArrayOfValues`, `ContainerLaws.DictOfValues`,
   `StructLaws.StructOfValues` and their neighbours: what typed conversion gives for each plan, or which fault, with
   every bound as an inequality and every lenient word as literal bytes.
10. `Unicode.PairMeans`, `Unicode.UnitMeans`: the code point an escape stands for; `Unicode.TextIsItsPoints` and
    `Unicode.PointsAreTheirOwn`: texts and sequences of code points determine each other.
11. `Shapes.ShapedIffUniform`, `Quoting.QuoteRoundTrip`, `ReadHeaders.HeaderReads`, `ExactIntegers.ExactTextIsExact`,
    `ExactIntegers.ExactTextMissing`, `CanonicalFloats.CanonicalFloatReads`: the facts about single components that the
    above rest on.

## Model

| member | source | states |
|---|---|---|
| `Utf8.ValidUtf8CodePoint` | src/scalar.rs:141-189 | the bytes written for any code point that is no surrogate are well-formed UTF-8 by section 4 of RFC 3629 |
| `Scalar.ClassifyBare` | src/scalar.rs:20-70 | one pass over a bare token decides as the keywords and two separate grammars, for integers and for floats, do |
| `Scalar.ScanNumber` | src/scalar.rs:31-67 | the cursor over digits, fraction and exponent accepts exactly the integer grammar or the float grammar |
| `Escapes.ScanQuoted` | src/scalar.rs:75-138 | the scan ends behind the first closing quote, or reports the first broken escape or the missing quote with its position |
| `Escapes.Unescape` | src/scalar.rs:141-189 | resolves every escape of an accepted span, combining surrogate pairs |
| `Escapes.AcceptedSpanHasMeaning` | src/scalar.rs:75-189 | every span the scan accepts can be unescaped: no escape is out of range or unknown, no surrogate is alone |
| `Escapes.QuotedSpanIsUtf8` | src/scalar.rs:75-189 | unescaping an accepted span of well-formed UTF-8 gives well-formed UTF-8 |
| `Cells.FindIsLeast` | src/scalar.rs:248-267 | an unquoted position is the least one with the byte outside quotes, escapes skipped |
| `Cells.FindUnquoted` | src/scalar.rs:248-267 | finds that position from any start |
| `Cells.ScanLineMarks` | src/scalar.rs:206-236 | one pass over a line finds what two independent scans for bracket and colon would |
| `Cells.ResolvedColon` | src/scalar.rs:242-246 | resuming behind the bracket finds the colon of a whole scan |
| `Cells.SplitCellsInto` | src/scalar.rs:279-303 | the plain byte search and the quote-aware search split a row into the same cells |
| `Cells.SplitOfJoin` | src/scalar.rs:270-303 | splitting joined cells gives back the cells |
| `Cells.TrimSpaces` | src/scalar.rs:305-313 | drops the spaces at both ends |
| `Scan.Scanner.NextLine` | src/scan.rs:46-150 | delivers the next line of the line stream, its end, or its fault: byte-order mark, carriage return, blank lines, indentation by mode, depth limit |
| `Scan.Scanner.ReadLenient` | src/scan.rs:76-109 | in lenient mode a tab counts as a level and odd spaces round down |
| `Scan.Lines.Peek` | src/scan.rs:168-173 | looks at the next line and consumes nothing |
| `Scan.Lines.Advance` | src/scan.rs:175-180 | consumes exactly the line that was peeked |
| `Scan.Lines.CurrentLineNumber` | src/scan.rs:182-184 | once the end was seen it is the number of the last line |
| `Scan.ScannedDepthIsBounded` | src/scan.rs:130-140 | no delivered line lies deeper than 256, in either mode, on any input |
| `Header.ParseBracket` | src/header.rs:134-162 | reads length, keyed colon and delimiter, and refuses leading zeros, other suffixes and overflow |
| `Header.ParseStringToken` | src/header.rs:164-177 | a key is a whole quoted span or a bare slice |
| `Header.FindMatchingBrace` | src/header.rs:183-216 | the loop with depth and quote flags finds the brace that the recursive sweep finds, and the deepest nesting on the way |
| `Header.FindTopLevelDelimiter` | src/header.rs:277-301 | finds the first delimiter outside quotes and braces |
| `Header.ParseFieldGroup` | src/header.rs:218-274 | the loop with its recursion per brace gives the field tree of the grammar, or its first fault |
| `Header.ParseHeader` | src/header.rs:41-130 | decides header, malformed header or no header as the grammar does, in each mode |
| `HeaderDepth.AcceptedGroupIsSound` | src/header.rs:78-100 | once the outer scan accepted a group no nested group is reported unclosed, and every accepted tree nests at most 256 deep |
| `Untyped.FusedIsPlain` | src/event.rs:196-241 | replacing fused events by the events they stand for changes no run of the untyped consumer |
| `TypedTrees.FusedIsPair` | src/event.rs:196-241 | between fields the typed consumer's fused path does what the key and the value do one after the other |
| `Parser.ResolveEntryColon` | src/parser.rs:195-198 | the colon of an entry is the first unquoted one that ends the line or precedes a space |
| `Parser.ClassifyValue` | src/parser.rs:200-217 | a value is a whole quoted span or a bare token |
| `Parser.SeenKeys.NoteKey` | src/parser.rs:346-361 | strict mode refuses a key whose unescaped text was seen; lenient mode keeps nothing |
| `Parser.NextBodyLine` | src/parser.rs:369-394 | takes a row or item exactly when the line stands one level deeper and is still declared, with strict mode's faults for blank, missing and surplus lines |
| `Parser.RejectExtraRows` | src/parser.rs:434-441 | behind the declared rows a deeper line is a fault |
| `Parser.EmitRowFields` | src/parser.rs:594-641 | consumes exactly the header's leaf count of cells and emits one fused event per leaf and group |
| `Parser.EmitRow` | src/parser.rs:456-481 | refills the cell buffer, checks the width against the header and emits the row |
| `Parser.ParseTableRows` | src/parser.rs:443-483 | emits the rows of a table, reading unread lines only |
| `Parser.ParseKeyedRow` | src/parser.rs:525-566 | one row of a keyed table: its key, its cells, or a line that lenient mode drops |
| `Parser.ParseKeyedBody` | src/parser.rs:511-568 | emits a keyed table as one object of rows |
| `Parser.ParseArrayBody` | src/parser.rs:443-507 | tells table, inline array and list apart and emits them |
| `Parser.ParseObjectBody` | src/parser.rs:226-264 | emits the entries at its depth and faults on a deeper line |
| `Parser.ParseEntry` | src/parser.rs:267-344 | an entry is an array under a header, a nested object, or a key with a value; a malformed header is a fault in strict mode only |
| `Parser.ParseKeyValue` | src/parser.rs:301-344 | a key without value opens a nested object when the next line lies one level deeper |
| `Parser.ParseListItem` | src/parser.rs:657-774 | emits an empty object, an array, an object whose first entry stands behind the dash, or a scalar |
| `Parser.ContinueObjectItem` | src/parser.rs:776-806 | the further entries of an object item stand two levels below its list |
| `Parser.Parse` | src/parser.rs:52-104 | for every input, mode and indent size: the same fault as the grammar, or exactly the events of its tree; it terminates, and no routine is called deeper than 257 |
| `StrictMode.StrictLinesAreLenient` | src/scan.rs:46-150 | lines that strict mode scans to the end are scanned identically by lenient mode |
| `StrictMode.StrictHeaderIsLenient` | src/header.rs:41-130 | a header strict mode accepts reads identically in lenient mode |
| `StrictMode.StrictArrayIsLenient` | src/parser.rs:443-507 | an array body strict mode accepts reads identically in lenient mode |
| `StrictMode.AcceptedIsUnbroken` | src/parser.rs:184-189 | an accepted document was scanned to its end without a fault |
| `StrictMode.StrictIsRestriction` | src/parser.rs:52-104 | strict acceptance implies lenient acceptance with the identical tree, positions included |
| `StrictTrees.RowFollowsHeader` | src/parser.rs:594-641 | the fields of a row carry the header's names in order, at every level |
| `StrictTrees.StrictDocumentIsStrict` | src/parser.rs:226-568 | in every tree strict mode accepts, each array has its declared number of items and each object has distinct unescaped keys |
| `Values.DenotedKeysAreDistinct` | src/untyped.rs:105-118 | a built dictionary has distinct keys, a repeated key keeping its place and taking the last value |
| `Untyped.Consumer.On` | src/untyped.rs:199-280 | each event changes the builder stack as the step function says |
| `Untyped.Consumer.Put` | src/untyped.rs:105-118 | puts a value into the innermost list, under the pending key, or as the result |
| `Untyped.EventsBuildTheValue` | src/untyped.rs:105-280 | the events of any tree reach no internal fault and leave exactly the value the tree denotes |
| `Output.Writer.Indent` | src/writer.rs:34-37 | appends depth times width spaces |
| `Output.Writer.Finish` | src/writer.rs:43-48 | the result with a line feed is the buffer, or is the buffer if that ends no line |
| `Layout.EncodedEndsNoLine` | src/writer.rs:39-48 | a document is its lines, each ended by a line feed but the last |
| `Quoting.WriteQuoted` | src/encode.rs:1497-1524 | copying clean spans in bulk appends the same bytes as escaping byte by byte |
| `Quoting.QuoteRoundTrip` | src/encode.rs:1497-1524 | for every string and any suffix the scan stops exactly behind the closing quote and unescaping gives the string |
| `QuoteDecision.NeedsQuote` | src/encode.rs:1612-1654 | one pass decides as the separate conditions on keywords, numbers, first byte, edges and forcing bytes do |
| `QuoteDecision.NumberLikeCoversNumbers` | src/encode.rs:1612-1654 | the looser number condition covers everything that classifies as a number |
| `QuoteDecision.LongEntryDecision` | src/encode.rs:540-563 | the path for entry strings of 96 bytes or more decides as the full condition does, unless the string starts oddly or ends in a space |
| `QuoteDecision.WriteEntryString` | src/encode.rs:540-563 | writes an entry string by the rule of its length |
| `QuoteDecision.WriteKey` | src/encode.rs:1656-1675 | quotes a key unless it is a plain identifier |
| `Shapes.ShapedIffUniform` | src/encode.rs:1045-1169 | within the depth limit there is a shape exactly when all rows are non-empty objects with one key set whose columns are, recursively, all scalar or all uniform (section 9.3 of TOON 4.1) |
| `Shapes.ShapedRowFits` | src/encode.rs:1171-1246 | every row has every column of the shape found, as a scalar where the shape has a leaf: writing it loses no column and gives the header's leaf count of cells |
| `Encoder.DiscoverShape` | src/encode.rs:1045-1169 | the loops over keys and rows find the shape the specification function finds |
| `Encoder.DiscoverKeyed` | src/encode.rs:808-845 | finds the shape of a keyed table |
| `Encoder.WriteScalar` | src/encode.rs:1289-1406 | writes exactly the scalar's text and fails on containers |
| `Encoder.WriteFieldGroup` | src/encode.rs:1184-1196 | writes the rendered field tree |
| `Encoder.WriteRowObj` | src/encode.rs:1200-1246 | appends the delimited cells of the row's columns, failing when a column is missing or no scalar |
| `Encoder.WriteArray` | src/encode.rs:566-691 | chooses empty, inline, table or list form and appends its lines |
| `Encoder.WriteListItem` | src/encode.rs:693-749 | appends an item: a scalar, an array, or an object whose first entry shares the dash line |
| `Encoder.WriteKeyed` | src/encode.rs:847-883 | appends header and rows of a keyed table |
| `Encoder.WriteEntry` | src/encode.rs:497-537 | appends an entry with all lines below it |
| `Encoder.EncodeRoot` | src/encode.rs:449-476 | produces exactly the lines of the specification, without the last newline, or nothing past the nesting limit |
| `CanonicalFloats.CanonicalFloatReads` | src/encode.rs:1566-1604 | each of the four layouts denotes the digits and exponent it was given and classifies as a number: as an integer exactly in the whole-number layout (section 6.1.6.1.20 of ECMA-262) |
| `Layout.WrittenLineReads` | src/scan.rs:62-150 | a written line reads as its depth and content, or as too deep |
| `Layout.WrittenLinesScan` | src/scan.rs:46-150 | in either mode the scanner delivers the written lines one by one, up to the first that lies too deep |
| `WrittenLines.EntriesAreWritable` | src/encode.rs:478-537 | every line of an entry is one the scanner delivers: no line feed, not blank, no comment or indentation byte first |
| `ReadScalars.ScalarReads` | src/encode.rs:1289-1406 | the text of every scalar classifies to that scalar |
| `ReadScalars.KeyReads` | src/encode.rs:1669-1675 | the text of every key reads as that key |
| `ReadGroups.GroupReads` | src/encode.rs:1184-1196 | parsing a rendered field tree with distinct sibling names gives that tree, in either mode and with any delimiter |
| `ReadHeaders.HeaderReads` | src/encode.rs:566-691 | a written array header reads as its key, length, delimiter and field tree |
| `ReadLeaves.NoColonNoHeaderLine` | src/header.rs:41-130 | a line with a bracket but without colon and quotes is malformed for the header grammar, or refused in either mode exactly when braces nested past the limit stand directly behind a length in brackets |
| `ReadRows.RowReads` | src/encode.rs:1200-1246 | a written row, split and classified, denotes its columns |
| `ReadRows.TableReads` | src/encode.rs:566-691 | a written table reads as its rows and leaves the lines behind it |
| `ReadRows.KeyedReads` | src/encode.rs:847-883 | a written keyed table reads as its rows under their keys |
| `ReadBack.PairReads` | src/encode.rs:497-537 | a written entry reads back exactly when its value's conditions hold, and then as the normalised value |
| `ReadBack.ArrayBodyReads` | src/encode.rs:566-691 | the same for array bodies of every form |
| `ReadBack.ItemReads` | src/encode.rs:693-749 | the same for list items |
| `RoundTrip.RootReads` | src/encode.rs:449-476 | the same for whole documents, line by line |
| `RoundTrip.EncodedReturnsIff` | src/encode.rs:449-476 | an encoded document comes back if and only if the value's conditions hold and its lines are within the depth limit |
| `RoundTrip.BomRootFails` | src/scan.rs:59-61 | a root string that starts with an unquoted byte-order mark never comes back |
| `Reach.RootReaches` | src/encode.rs:485-577 | the depth of the deepest written line, computed from the value alone |
| `Stability.NormIsSame` | src/encode.rs:1080-1108 | what comes back equals the value with objects compared as maps |
| `Stability.ProjectedShape` | src/encode.rs:1045-1169 | rows in header order have the same shape as the rows they came from |
| `EncoderLimit.ProbeDecides` | src/encode.rs:1045-1169 | shape discovery hits the limit exactly when its probe, columns in the first row's order up to the first without a shape, reaches below it |
| `EncoderLimit.ShapeNestsAsProbed` | src/encode.rs:1184-1196 | the header of a shape nests one brace more than the probe reaches |
| `EncoderLimit.RootDecides` | src/encode.rs:449-883 | a value is written exactly when the deepest level at which the encoder checks its limit, computed from the value alone, is at most 256 |
| `StableText.EncodingIsStable` | src/encode.rs:449-883 | the value that comes back is written as the same lines exactly when that level, taken in header order, is at most 256, and otherwise not at all |
| `Codec.DecodeIsDenotation` | src/untyped.rs:86-118 | decoding fails exactly when parsing does, and otherwise gives the value the tree denotes |
| `Codec.RoundTrips` | src/encode.rs:449-476 | in either mode decoding inverts encoding, up to key order, if and only if the value's conditions for that mode hold |
| `Codec.LenientRoundTrip` | src/parser.rs:52-104 | a value that meets the conditions of strict mode meets those of lenient mode, and both decode it alike, as the same value up to key order |
| `Codec.EncodeSucceeds` | src/encode.rs:449-476 | encoding succeeds exactly when the value's limit level is at most 256 |
| `Codec.ByteStability` | src/encode.rs:449-883 | encoding the decoded value gives the same bytes if and only if the limit level in header order is at most 256, as it is for every value that nests at most that deep |
| `Codec.BareRoot` | src/parser.rs:86-104 | an unquoted root string without a mark comes back in a mode exactly when the header grammar does not claim it in that mode |
| `Codec.BracketStringIsLost` | src/encode.rs:1620-1625 | a root string with a later bracket is not quoted and comes back in lenient mode, but not in strict mode |
| `Codec.MarkedStringIsLost` | src/encode.rs:1620-1625 | a root string that is a byte-order mark does not come back |
| `Codec.TrailingSpaceIsLost` | src/encode.rs:549-559 | a long entry string ending in a space does not come back |
| `Codec.DeepListIsLost` | src/encode.rs:485-577 | a list below 257 dictionaries is written and refused by the scanner |
| `Extremes.DeepHeaderIsLost` | src/header.rs:88-89 | a one-row table whose header nests 257 groups is written and refused by the header parser |
| `Extremes.DeepGroupIsLost` | src/header.rs:88-89 | a root string of a key, a length in brackets and 257 nested braces is not quoted and comes back in neither mode |
| `Extremes.OrderCanMatter` | src/encode.rs:1054 | a value that is written and comes back but is not written again: in header order shape discovery goes one level deeper |
| `Codec.TypedDecodeIsConversion` | src/typed.rs:296-338 | typed decoding of a document that parses is the recursive conversion of its tree |
| `Codec.AnyIsUntyped` | src/typed.rs:969-1038 | under the plan that takes anything typed decoding gives what untyped decoding gives |
| `ExactIntegers.ExactIntegerText` | src/typed.rs:145-226 | the cursor over mantissa and exponent computes the exact digits or none |
| `ExactIntegers.ExactTextIsExact` | src/typed.rs:145-226 | a result is a canonical integer and equals the number the text stands for |
| `ExactIntegers.ExactTextMissing` | src/typed.rs:145-226 | on a JSON number (section 6 of RFC 8259) there is no result exactly when the exponent overflows 32 bits, more than a million digits would be needed, or the number is no integer |
| `Plans.ValidateContainerChains` | src/plan.rs:292-310 | accepts a graph exactly when every chain of single-member unions ends |
| `Plans.ResolveContainer` | src/plan.rs:453-464 | in an accepted graph the loop returns the first node that is no such union, and never reaches its unreachable branch |
| `Plans.ActionSelects` | src/plan.rs:236-245 | a key selects the last field of its name; without one it is refused exactly when unknown fields are forbidden, and otherwise skipped |
| `Plans.ScalarBehindWrappers` | src/typed.rs:461-520 | a scalar other than null is converted by the node behind the wrappers |
| `Plans.ExactMemberDecides` | src/typed.rs:119-141 | in a union of scalars the first member of exactly the token's category decides, wherever it stands |
| `TypedTrees.SkipTree` | src/typed.rs:1040-1054 | inside a skipped value the events of any tree leave the machine as it was |
| `TypedProof.AnyConverts` | src/typed.rs:969-1038 | an `Any` subtree is built by the untyped consumer and placed when its last container closes |
| `TypedProof.TreeConverts` | src/typed.rs:383-459 | from any state that expects a value, the events of a tree place exactly the converted value or give its fault |
| `TypedProof.MachineIsConversion` | src/typed.rs:1056-1823 | the frame stack is the recursive conversion: skipped keys, duplicates, defaults, fixed tuples, dictionaries, `Any` subtrees and faults included |
| `TypedConsumer.Consumer.On` | src/typed.rs:1161-1823 | each event changes stack, skip depth and subtree consumer as the step function says |
| `TypedConsumer.Consumer.OnScalarFieldEvent` | src/typed.rs:1541-1598 | the fused path of a cell |
| `TypedConsumer.Consumer.OnEndObjectFieldEvent` | src/typed.rs:1461-1490 | the end of a field group returns the child to its slot |
| `TypedConsumer.Consumer.BuildObject` | src/typed.rs:901-963 | fills missing slots with fallbacks, or reports a missing required field |
| `RowMemo.Resolver.LookupFieldAction` | src/typed.rs:762-809 | replays, records or switches off as the lookup function says |
| `RowMemo.RecordIsPlain` | src/typed.rs:762-809 | an open memo answers from the plan and records the lookups made |
| `RowMemo.ReplayIsPlain` | src/typed.rs:771-785 | a sealed trusted memo answers a repeated sequence of lookups as the plan does |
| `RowMemo.DisabledIsPlain` | src/typed.rs:259-271 | a memo that is switched off, as for fixed tuples, changes nothing |
| `RowReplay.ParsedRowsHaveHeader` | src/parser.rs:594-641 | the rows the parser emits for a table have exactly the header's fields |
| `RowReplay.TabularReplayIsPlain` | src/typed.rs:233-271 | for any header and any number of rows the memo answers every key as the frame's plan does, and the run is the plain one |
| `ListReplay.SealedRow` | src/typed.rs:787-797 | under a sealed memo a row is answered as the plans do exactly when its lookups answer to the recorded ones; a row that asks for another key switches the memo off |
| `ListReplay.ListReplayIsPlain` | src/typed.rs:762-809 | an array of structs written as a list, whatever its items: the memo answers every key as the frame's plan does if and only if the rows' lookups answer to the first row's, and then the run is the plain one |
| `ListReplay.FlatRowsAnswer` | src/typed.rs:787-797 | rows that only ever ask their own struct always answer |
| `ListReplay.LooseListIsPlain` | src/typed.rs:1615-1624 | an array whose items are no structs never seals its memo and always runs plainly |
| `ListExample.ListReplayCanBeWrong` | src/typed.rs:787-797 | a list of two rows, the second with null for the optional struct inside: the plain run gives its `x`, the memoized run gives the number to `y` |
| `PlanGraph.GraphCompiler.Lower` | python/msgspec_toon/_plan.py:130-153 | shares known types; finished nodes keep their place and content; a refusal for depth comes with a path of more than 129 types, one for size with more than 4096 types reached from the root, one for a cycle with a path back to a type that is no struct |
| `PlanGraph.GraphCompiler.LowerNew` | python/msgspec_toon/_plan.py:158-297 | the node of a type has the nodes of its parts in their order |
| `PlanGraph.GraphCompiler.Complete` | python/msgspec_toon/_plan.py:125-128 | succeeds exactly when no node is missing |
| `PlanGraph.CompilePlan` | python/msgspec_toon/_plan.py:43-57 | on success every node is its type with parts replaced by nodes, no two types share one, edges lead to structs or to nodes finished earlier; every refusal is explained by the types, and a missing node is never its reason |
| `PlanGraph.CyclePassesStruct` | python/msgspec_toon/_plan.py:136-139 | if compilation succeeds every cycle of types it reached passes through a struct |
| `PlanGraph.CompiledIsValid` | src/plan.rs:292-310 | a compiled graph has its edges in range and all its wrapper chains end |
| `PlanGraph.CompileNative` | src/plan.rs:272-290 | the native graph of a compiled plan is accepted by the runtime's check and fit for typed decoding, keeps mode and host, and each of its nodes is the one its type calls for |
| `Unicode.CodePointIsCarried` | src/scalar.rs:141-189 | the bytes written for a code point carry that number, in the shortest sequence that can (section 3 of RFC 3629) |
| `Unicode.TextIsItsPoints` | src/scalar.rs:141-189 | a well-formed text is the spelling of its code points |
| `Unicode.PointsAreTheirOwn` | src/scalar.rs:141-189 | the text that code points spell has exactly those code points |
| `Unicode.UnitMeans` | src/scalar.rs:141-189 | a backslash, `u` and the four digits of any code point but a surrogate stand for its UTF-8 bytes |
| `Unicode.PairMeans` | src/scalar.rs:165-175 | the two escapes of the halves 55296 + (c - 65536) / 1024 and 56320 + (c - 65536) % 1024 stand for c, for every c from 65536 to 1114111 |
| `Unicode.HalfNeedsTheOther` | src/scalar.rs:75-138 | a surrogate means something exactly when it is a high half with the escape of a low half behind it |
| `Unicode.LetterMeans` | src/scalar.rs:141-189 | what each escape of one letter stands for, and that no other letter is one |
| `TokenLaws.BareTokens` | src/scalar.rs:20-70 | a bare token is null, a truth value, an integer, a number with fraction or exponent (section 6 of RFC 8259), or a string |
| `TokenLaws.TokensAreWorth` | src/pyval.rs:57-70 | the value of each kind of token |
| `TokenLaws.QuotedValues` | src/parser.rs:200-217 | a value in quotes is the string it spells; what follows the closing quote is a fault at its column |
| `TokenLaws.BadEscapes` | src/scalar.rs:75-138 | an escape that means nothing is a fault at its backslash |
| `TokenLaws.FirstColonDecides` | src/parser.rs:195-198 | the first colon outside quotes ends the key if the line ends or a space follows; otherwise none does |
| `TokenLaws.SplitOfPadded` | src/scalar.rs:270-313 | cells with any spaces around them are split into the cells |
| `LineLaws.SpacedLine` | src/scan.rs:62-150 | spaces, text, spaces: a comment, or the text at the level of its whole units; strict mode takes whole units only; past level 256 a fault |
| `LineLaws.BlankLine` | src/scan.rs:62-150 | spaces and tabs alone are a blank line |
| `LineLaws.StrictTab` | src/scan.rs:111-128 | a tab in the indentation is strict mode's fault at its column |
| `LineLaws.LenientTabs` | src/scan.rs:76-109 | in lenient mode each tab of the indentation is one level more |
| `LineLaws.MarksAreStripped` | src/scan.rs:46-61 | the first line loses a byte-order mark, any line one carriage return |
| `LineLaws.LinesAreRead` | src/scan.rs:46-150 | lines are read one by one up to their line feeds; a line follows a blank one when only blank lines and comments lie before it |
| `HeaderLaws.BracketsAre` | src/header.rs:134-162 | the inside of a bracket is read exactly when it is a number below 2^64 without leading zeros, a colon if keyed, and a delimiter's mark |
| `HeaderLaws.FlatGroup` | src/header.rs:218-274 | the fields of a group in turn; an empty one is refused, and in strict mode a repeated one |
| `HeaderLaws.NestedField` | src/header.rs:218-274 | a name with braces behind it has their fields; nothing may follow them |
| `HeaderLaws.BracketDecides` | src/header.rs:41-77 | what the text between brackets makes of a line: malformed when it is no bracket's inside |
| `HeaderLaws.ColonFollows` | src/header.rs:102-130 | what stands between bracket and colon, and behind the colon, decides header, values or fault |
| `RowLaws.RowIs` | src/parser.rs:594-641 | a row is accepted exactly when its line has a cell for every scalar of the header, and is the header's fields with the cells as scalars |
| `OutlineReads.DocumentRead` | src/parser.rs:52-104 | lines on which a tree stands are read as that tree |
| `OutlineTells.DocumentMeans` | src/parser.rs:52-568 | a document means a tree exactly when it is UTF-8, was scanned to its end, and the tree stands on all its lines: rows, items and entries at their depths, as many as declared and none behind a blank line in strict mode |
| `Refusals.TableStops` | src/parser.rs:369-394 | behind the rows that are in order: a surplus, missing or misplaced row, or one behind a blank line, is the fault, at its place |
| `Refusals.ListStops` | src/parser.rs:369-394 | the same behind the items of a list |
| `Refusals.KeyedStops` | src/parser.rs:525-566 | the same behind the rows of a keyed table, and the faults of a row's key |
| `Refusals.ObjectStops` | src/parser.rs:226-344 | an object stops at a deeper line, or at the line that is no entry, with that line's fault |
| `Refusals.ItemStops` | src/parser.rs:776-806 | an object that is a list item stops at a line behind a blank one in strict mode, or at one that is no entry |
| `Refusals.DashStops` | src/parser.rs:657-774 | the faults of the text behind a dash |
| `Refusals.RootStops` | src/parser.rs:86-104 | the faults of a first line that starts no document |
| `Refusals.NothingFollows` | src/parser.rs:184-189 | a line behind an array, a keyed table or a scalar is a fault at its place |
| `Dictionaries.ObjectDenotesLast` | src/untyped.rs:105-118 | an object denotes its names in the order they first appear, each with the value it has last |
| `PlainStrings.QuotedUnlessPlain` | src/encode.rs:1606-1654 | a string is quoted exactly when it is empty, holds the delimiter, a colon, a quote, a backslash or a control byte, has harmful ends, is a keyword, or is like a number |
| `PlainStrings.StringsInPlace` | src/encode.rs:540-563 | the line of a string as root, behind a key, behind a dash and its text as cell: itself or in quotes by that condition, long entry strings by their own |
| `PlainStrings.KeyIsSpelled` | src/encode.rs:1656-1675 | a key stands as it is exactly when it starts with a letter or underscore and goes on with letters, digits, `_`, `-` and `.` |
| `PlainStrings.QuotesAre` | src/encode.rs:1497-1524 | the escape of every byte in quotes |
| `PlainStrings.IntegerText` | src/encode.rs:1289-1330 | an integer is written as its one numeral without leading zeros |
| `Canonical.WrittenCanonically` | src/encode.rs:449-883 | the lines written are those of the reference form, whatever the encoder probed to find them |
| `Codec.EncodesCanonically` | src/encode.rs:449-883 | the document is the reference text exactly when the value's limit level is at most 256, and there is none otherwise |
| `NumberLaws.ExponentByMagnitude` | src/encode.rs:1566-1604 | a float has an exponent exactly when its magnitude is at least 10^21 or less than 10^-6 |
| `NumberLaws.PlainLayouts` | src/encode.rs:1566-1604 | the three layouts without exponent, byte by byte |
| `NumberLaws.ExponentLayouts` | src/encode.rs:1566-1604 | the layout with exponent, byte by byte |
| `NumberLaws.PowersOfTen` | src/typed.rs:145-226 | a power of ten is read exactly when it has at most a million digits |
| `NumberLaws.ZeroTimes` | src/typed.rs:145-226 | zero with a negative exponent is zero exactly when the exponent's size is at most 2147483647 |
| `NumberLaws.NoNegativeZero` | src/typed.rs:145-226 | no text is read as negative zero |
| `ScalarLaws.BoundsAreMet` | src/plan.rs:118-163 | a node's bounds hold exactly when the integer lies between them and is a multiple of the divisor, or the string has as many code points as allowed |
| `ScalarLaws.ExactCategory` | src/typed.rs:461-558 | a token of the plan's own category becomes the value untyped decoding gives it, or a constraint fault when that is out of bounds; null and truth values have no bounds |
| `ScalarLaws.StrictTakesNoOther` | src/typed.rs:461-558 | in strict mode the only other scalar any plan takes is an integer as a float |
| `ScalarLaws.ContainersTakeNoScalar` | src/typed.rs:461-667 | a container plan refuses every scalar |
| `ScalarLaws.LenientTruth` | src/typed.rs:477-495 | the words and numbers lenient mode takes for true and for false, and that there are no others |
| `ScalarLaws.LenientIntegers` | src/typed.rs:496-531 | the strings lenient mode takes for integers, and what they are worth |
| `ScalarLaws.Floats` | src/typed.rs:532-547 | the tokens that become floats in each mode |
| `ScalarLaws.NullInUnion` | src/typed.rs:559-566 | null is taken exactly by nullable unions |
| `ScalarLaws.UnionDecides` | src/typed.rs:567-602 | the first member, in the order exact category, integer, float, truth value, string, others, that does not refuse the type decides |
| `ScalarLaws.UnionRefuses` | src/typed.rs:567-602 | a union whose members all refuse the type refuses it |
| `ContainerLaws.ArrayOfValues` | src/typed.rs:1637-1802 | an array whose elements convert is the list or tuple of their values in order, if its length is the fixed one and within bounds |
| `ContainerLaws.ArrayStopsAt` | src/typed.rs:1637-1802 | the first element that does not convert, or is one too many for a fixed tuple, is the fault |
| `ContainerLaws.DictOfValues` | src/typed.rs:1600-1635 | an object whose entries convert is the dictionary of its names, each once with its last value; the bounds count names |
| `ContainerLaws.DictStopsAt` | src/typed.rs:1492-1598 | the first entry that does not convert is the fault |
| `StructLaws.StructOfValues` | src/typed.rs:901-963 | a struct gives each field the value behind the last key of its name, or its fallback; a field with neither is missing |
| `StructLaws.StructStopsAt` | src/typed.rs:1492-1598 | the first unknown key, repeated key in strict mode, or value that does not convert is the fault |
| `PlanGraph.NodeOfType` | src/plan.rs:316-451 | the node of each type is read off the type: a union is nullable exactly when one of its types is none and has the others' nodes in order, lists, tuples and dictionaries have the nodes of their parts, structs keep class, names, fallbacks and refusal of unknown keys |
| `PlanGraph.SupportIs` | python/msgspec_toon/_plan.py:158-297 | which types are refused: dictionaries whose keys are no strings, unions that cannot be decoded, types of the user |
| `Extremes.NestingCounts` | src/encode.rs:485-577 | nested lists are written up to 128 levels, nested dictionaries up to 256 |

## Left out

- Line numbers and columns are unbounded naturals; the source keeps them in 32 bits.
- PlanGraph.NativePlan: does not model tag fields, tag values and array-like structs, because the consumer modelled here is the one without object preflight; a tagged union compiles but its selection is not modelled.
- PlanGraph.CompilePlan: does not say that a refused cycle is free of structs: it is refused when the type met again is no struct, even where a struct lies elsewhere on the cycle.
- Codec.TypedDecodeIsConversion: covers the order of faults of documents that parse; a document is parsed before it is consumed here, while the source stops at the first fault of either, so that a type fault on an earlier line comes before a syntax fault on a later one.
- Encoder.WriteScalar: takes a float as its finished text; the spelling of floats that are not finite belongs to the host, like their digits.
- ListReplay.ListReplayIsPlain: judges the memo of one array; arrays inside its rows have memos of their own, which the source keeps on a stack.
- Codec.RoundTrips: a float is known by its canonical spelling; parsing and printing of binary floats belong to the host and are not part of this model.
- Plans.LenientInteger: strings that look like floats are converted through a table of the host's float parser.
- Object preflight, `ObjectProbe` and the selection of tagged union members (the extended consumer).
- `Custom`, `Literal`, native scalars, `enc_hook`, `dec_hook` and `float_hook`: code of the library or the user.
- Regular expressions and float bounds among the constraints of a node.
- Default factories: a fallback is a value here, where the source may call a function.
- Struct encoding (static shapes, attribute and offset access, omitted defaults); rows of dictionaries take the same shape logic.
- Key caches of the untyped consumer, value pools, reservation estimates and allocation counters: they change no result.
- Error paths and error texts; faults carry a code and a position.
- Base64 text for byte strings.
- Bindings to Python objects, option validation, benchmarks, conformance scripts and packaging.
