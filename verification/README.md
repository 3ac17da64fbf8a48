# SpectraLang tooling, verified

SpectraLang's build and migration tools are small programs on which the language's releases
depend: a lexical syntax migrator, a Protocol Buffers reader, a generator of lowering tables with
two readers of its output, an aggregator of benchmark attempts, the fingerprint of the embedded
standard library, an artifact container, a splicer for Python sources and an execution gate. This
project models the logic of each in Dafny and proves what its users rely on, for every input.

| part | files |
|---|---|
| shared | `Wrappers`, `Bits`, `PythonText` |
| syntax migrator | `SurfaceLexer`, `SurfaceRewriter`, `SurfaceRelexing`, `SurfaceEcho`, `SurfaceTheorems`, `SurfaceArrows`, `SurfaceCuts`, `SurfaceStale`, `SurfaceEdits`, `SurfaceArms`, `SurfaceMarkers`, `SurfaceSecondRun`, `SurfaceWritten`, `SurfaceArmTexts` |
| ONNX wire reader | `WireFormat`, `WireTheorems`, `WireCounts`, `WireErrors` |
| lowering types | `LoweringText`, `LoweringTypes`, `LoweringExpressions`, `LoweringNames`, `LoweringTypeTheorems`, `LoweringTypeRoundTrip`, `LoweringForms` |
| lowering arms | `LoweringArms`, `LoweringDescriptors`, `LoweringRawText`, `LoweringBrackets`, `LoweringArmRoundTrip`, `LoweringOddNames`, `LoweringHelperArms`, `LoweringSymbols`, `LoweringPrinted` |
| lowering layout | `LoweringLayout`, `LoweringBlocks`, `LoweringArmBlocks`, `LoweringArmStyles`, `LoweringLayoutTheorems`, `LoweringSourceCheck` |
| placement and coverage | `LoweringPlacement`, `LoweringCoverage`, `LoweringOrder`, `LoweringReports` |
| whole tables | `LoweringArmScan`, `LoweringTableText`, `LoweringPattern`, `LoweringTableRoundTrip`, `LoweringTails`, `LoweringCatalogRoundTrip` |
| benchmark aggregation | `BenchmarkStatistics`, `BenchmarkAggregation`, `BenchmarkReport` |
| standard-library bundle | `Fingerprint`, `StdlibBundle`, `StdlibBundleTheorems` |
| artifact container | `ArtifactContainer`, `ArtifactTheorems`, `ArtifactBytes` |
| Python splicer | `EmbeddedSplice` |
| execution gate | `ExecutionGate` |

Code that loops over mutable state is a method with a loop, proved to compute a function of its
inputs; the main results are lemmas about those functions. `None` and `Err` stand for the
exceptions of the source.

Where the code does less than its documentation or its own messages say:

- Token rewriting is not idempotent on a text in which `!` stands directly before `=>`
  (`StrandedBangExample`); it is idempotent on every other text (`RewritingIsIdempotent`).
- Token rewriting with the arrow pass behind it is not idempotent either. A second run changes the
  result of `!=>` (`BangArrowExample`), and that of `fn__SPECTRA_MATCH_ARROW=>`, where the marker
  of the arrow completes half a marker and the pass cuts `fn` free (`HalfMarkerExample`). In all texts
  without markers of their own it changes nothing exactly when no bang stands before an arrow and no
  rewritten line frees a legacy word, that is, has one directly in front of its first marker and does
  not start with `when ` or `otherwise ` (`SecondRun`). In texts without the beginning of a marker the
  bang is the only reason (`SecondRunChangesBangs`).
- A comment is lengthened when a dropped semicolon lets a `/` run into it, as in `/;//x`
  (`JoinedCommentExample`); comments are copied exactly in all other texts
  (`LiteralsAndCommentsAreCopied`).
- Two well-formed byte strings do not concatenate to the merged model when the first one's last
  fixed-width field runs past its end, because skipping does not look at the bytes left; the single
  byte 9 in front of an empty graph is one (`OverrunExample`). They do in all other cases
  (`MergeLaw`).
- A map whose key holds an underscore, or a collection argument that is nested or ends in an
  underscore, does not come back from its printed struct name; `Map<a_b,int>` is one
  (`MapKeyExample`). All other collections do (`CollectionSurvives`).
- The catalog reader finds no host symbol in a struct arm that names a shared constant, as that of
  `error.code` does (`SharedSymbolExample`). A descriptor it reads holds the function's symbol exactly
  when the arm names none (`SymbolComesBack`).
- Aggregated records say that they are trimmed by 20 percent on each side. Six samples are not, so that
  1, 1, 1, 1, 1 and 100 are all called stable (`SixExample`). Outliers are set aside exactly of five and
  of seven or more samples (`SixAreKept`).
- The second aggregation of benchmark attempts takes the first aggregate for a raw sample, although
  the report calls its samples raw. Attempts of 1, 5 and 9 confirmed by 2 and 3 are reported as 5
  instead of 3 (`SecondRoundCanMoveTheMedian`). The median is that of all samples exactly when the
  first aggregate and the first sample clamp to the same value around the middle of the other samples
  (`SecondRoundMedian`).
- Offsets of Python tokens count every line break `str.splitlines` knows, while the tokenizer counts
  line feeds. Behind a form feed the start of the second line is mapped to the wrong index
  (`FormFeedMovesPositions`). Positions are right exactly in texts without such a break before a line
  feed that has text behind it (`PositionsAreFound`).
- The gate asks for a baseline update when a skip sidecar is added to a recorded fixture, and the
  update refuses that fixture (`AddedSkipIsStuck`, `AddedSkipExample`). `UpdateIsWritten` says exactly
  when an update is written.
- A comment of the source says that an update never records a fixture that does not compile. In jit
  mode such a fixture shows only as a run that exits with 1, and it is recorded with that code
  (`FailingRunIsRecorded`).
- The docstring says that every recorded fixture must reproduce its status. A recorded fixture that is
  gone is not missed (`MissingFixtureExample`): a silent gate means that every record is kept exactly
  when no recorded fixture is gone (`GateSeesOnlyItsFixtures`). An update from some of the fixtures
  drops the records of all others, so that one that exits with 1 as before starts to fail
  (`PartialUpdateExample`); `PartialUpdateForgets` says which ones fail.

## Model

| member | source | states |
|---|---|---|
| `SurfaceLexer.LexIsLossless` | scripts/migrate_syntax_surface.py:110-206 | the scanner's tokens spell the whole text, nothing is lost or doubled |
| `SurfaceRewriter.ScanAndRewrite` | scripts/migrate_syntax_surface.py:104-208 | the scanning loop with its output list and bracket depth computes the token-wise rewriting |
| `SurfaceRewriter.ScanOne` | scripts/migrate_syntax_surface.py:110-206 | one turn of the loop appends the piece of the next token, moves past it and updates the depth |
| `SurfaceRewriter.ScanVerbatim` | scripts/migrate_syntax_surface.py:113-141 | comments and literals are copied verbatim |
| `SurfaceRewriter.LiteralEnd` | scripts/migrate_syntax_surface.py:126-141 | the loop over a literal stops behind the closing delimiter, escapes respected |
| `SurfaceRewriter.ScanDots` | scripts/migrate_syntax_surface.py:157-164 | dots, blanks and an equals sign are tightened, other dots are kept |
| `SurfaceRewriter.SkipBlanks` | scripts/migrate_syntax_surface.py:158-160 | the cursor stops behind the run of spaces and tabs |
| `SurfaceRewriter.SemicolonDrops` | scripts/migrate_syntax_surface.py:180-186 | a semicolon is dropped exactly before a comment, a line end or the end of the text |
| `SurfaceRewriter.ScanSingle` | scripts/migrate_syntax_surface.py:166-206 | bangs, semicolons, words and single characters take the turn of their token |
| `SurfaceRewriter.WordEnd` | scripts/migrate_syntax_surface.py:190-197 | a word is the longest run of word characters |
| `SurfaceRewriter.FindLineFeed` | scripts/migrate_syntax_surface.py:115-120 | a comment ends before the next line feed or at the end |
| `SurfaceTheorems.FixedPointsAreCanonicalTexts` | scripts/migrate_syntax_surface.py:104-208 | a text is a fixed point of token rewriting if and only if its tokens hold no legacy word, arrow, lone bang, spaced range or semicolon outside brackets |
| `SurfaceTheorems.FixedPoint` | scripts/migrate_syntax_surface.py:104-208 | the same from any position, previous character and bracket depth |
| `SurfaceTheorems.RewriteIsCanonical` | scripts/migrate_syntax_surface.py:104-208 | re-lexing the output of a text without a stranded bang finds nothing left to rewrite, whatever the pieces were glued to |
| `SurfaceTheorems.StrandedBangStays` | scripts/migrate_syntax_surface.py:152-169 | a stranded bang leaves legacy syntax in the output |
| `SurfaceTheorems.RewritingIsIdempotent` | scripts/migrate_syntax_surface.py:104-208 | rewriting twice is rewriting once if and only if no bang is stranded |
| `SurfaceTheorems.NoBangArrowNoStrandedBang` | scripts/migrate_syntax_surface.py:152-169 | a text without `!=>` has no stranded bang, so rewriting it is idempotent |
| `SurfaceTheorems.StrandedBangExample` | scripts/migrate_syntax_surface.py:152-169 | a concrete text on which rewriting twice differs from rewriting once |
| `SurfaceTheorems.Echo` | scripts/migrate_syntax_surface.py:110-206 | the piece written for a token lexes again to the same literal or comment, or to tokens that are never touched again, up to words of the tail it was glued to |
| `SurfaceTheorems.JoinedEcho` | scripts/migrate_syntax_surface.py:171-188 | a slash in front of a dropped semicolon and a comment lexes again as a longer comment |
| `SurfaceTheorems.LiteralsSurvive` | scripts/migrate_syntax_surface.py:123-141 | the literals of the output are those of the input, in order, for every text |
| `SurfaceTheorems.CommentsSurvive` | scripts/migrate_syntax_surface.py:113-121 | the comments of the output are those of the input in order, each with one slash in front if it is joined and as it was if not |
| `SurfaceTheorems.LiteralsAndCommentsAreCopied` | scripts/migrate_syntax_surface.py:110-208 | literals always agree, comments agree if and only if no slash stands before a dropped semicolon and a comment |
| `SurfaceTheorems.JoinedCommentExample` | scripts/migrate_syntax_surface.py:171-188 | a concrete text whose comment is lengthened |
| `SurfaceArrows.NormalizeMatchArrows` | scripts/migrate_syntax_surface.py:211-246 | the loop over the lines computes the arrow pass |
| `SurfaceArrows.NormalizeRemoves` | scripts/migrate_syntax_surface.py:211-246 | no marker is left behind the arrow pass, whatever the marker is, if it shares no letter with `then` |
| `SurfaceArrows.NormalizeFixedPoints` | scripts/migrate_syntax_surface.py:211-246 | the arrow pass leaves a text alone if and only if it holds no marker |
| `SurfaceArrows.NormalizeIsIdempotent` | scripts/migrate_syntax_surface.py:211-246 | running the arrow pass again changes nothing, for every text |
| `SurfaceArrows.MarkersAreArrows` | scripts/migrate_syntax_surface.py:152-155 | in a text without markers, token rewriting leaves a marker if and only if the code holds `=>`, whatever the pieces are glued to |
| `SurfaceArrows.BothFixedPoints` | scripts/migrate_syntax_surface.py:104-246 | token rewriting and the arrow pass together leave a text alone if and only if its tokens hold no legacy syntax and it holds no marker |
| `SurfaceArrows.SecondRunIsClean` | scripts/migrate_syntax_surface.py:104-246 | for every text, also one with markers of its own: a second run of both passes changes nothing if and only if the first run's result holds no legacy syntax |
| `SurfaceStale.StaleIsStranded` | scripts/migrate_syntax_surface.py:104-208 | re-lexing a rewritten text finds no arrow, spaced range or open semicolon, whatever the source was; it finds a bare bang or a legacy word if and only if the source had a stranded bang |
| `SurfaceSecondRun.ResultIsJudged` | scripts/migrate_syntax_surface.py:104-246 | what both passes make of a text without markers holds legacy syntax if and only if a bang was stranded or a rewritten line frees a legacy word; every inserted, cut or exchanged stretch is accounted for, inside literals and comments too |
| `SurfaceSecondRun.SecondRun` | scripts/migrate_syntax_surface.py:104-246 | for every text without markers of its own, a second run of both passes changes nothing if and only if no bang stands before an arrow and no rewritten line frees a legacy word |
| `SurfaceSecondRun.SecondRunChangesBangs` | scripts/migrate_syntax_surface.py:104-246 | in texts without the marker's beginning, a second run changes nothing if and only if no bang stands before an arrow |
| `SurfaceSecondRun.MigratedOnce` | scripts/migrate_syntax_surface.py:104-246 | texts with neither `!=>` nor the marker's beginning are migrated once and for all, arrows or not |
| `SurfaceSecondRun.BangArrowExample` | scripts/migrate_syntax_surface.py:104-246 | `!=>` becomes `when ! then`, which a second run changes |
| `SurfaceSecondRun.HalfMarkerExample` | scripts/migrate_syntax_surface.py:104-246 | a text without marker and stranded bang that a second run changes |
| `SurfaceWritten.LegacyWordInFront` | scripts/migrate_syntax_surface.py:24-31 | a text that starts with the word `fn`, `struct`, `pub`, `elif`, `elseif`, `of` or `unless` is rewritten to one that starts with `func`, `record`, `public`, `else if`, `else if`, `in` or `if not` |
| `SurfaceWritten.LegacyWord` | scripts/migrate_syntax_surface.py:190-198 | the same in the middle of a run, whatever was written before and however many brackets are open: the modern spelling, then what becomes of the rest |
| `SurfaceWritten.OtherWord` | scripts/migrate_syntax_surface.py:190-198 | every word outside those seven is kept |
| `SurfaceWritten.ReturnArrow` | scripts/migrate_syntax_surface.py:143-150 | `->` becomes `returns` with exactly one blank, or the whitespace that was there, on each side |
| `SurfaceWritten.MatchArrow` | scripts/migrate_syntax_surface.py:152-155 | `=>` becomes the marker `__SPECTRA_MATCH_ARROW__` |
| `SurfaceWritten.ClosedRange` | scripts/migrate_syntax_surface.py:157-164 | `..`, any spaces and tabs, and `=` become `..=` |
| `SurfaceWritten.LoneDots` | scripts/migrate_syntax_surface.py:157-164 | two dots without an equals sign behind them are kept, blanks included |
| `SurfaceWritten.Negation` | scripts/migrate_syntax_surface.py:166-169 | a bang that does not start `!=` becomes `not` and a blank |
| `SurfaceWritten.SemicolonInBrackets` | scripts/migrate_syntax_surface.py:171-175 | a semicolon inside square brackets is kept |
| `SurfaceWritten.SemicolonOutside` | scripts/migrate_syntax_surface.py:180-188 | outside it disappears at the end of the text or line and in front of a comment |
| `SurfaceWritten.SemicolonBreaks` | scripts/migrate_syntax_surface.py:180-188 | and becomes a line break everywhere else |
| `SurfaceWritten.CommentIsCopied` | scripts/migrate_syntax_surface.py:113-121 | a comment is copied up to the end of its line |
| `SurfaceWritten.LiteralIsCopied` | scripts/migrate_syntax_surface.py:126-141 | a literal is copied up to its first delimiter that is not escaped |
| `SurfaceWritten.OpenLiteralIsCopied` | scripts/migrate_syntax_surface.py:126-141 | a literal without such a delimiter is copied up to the end of the text |
| `SurfaceWritten.CharacterIsCopied` | scripts/migrate_syntax_surface.py:200-206 | every other character is copied, and square brackets are counted, never below zero |
| `SurfaceWritten.LoneCharacter` | scripts/migrate_syntax_surface.py:200-206 | the first character of an operator that is not rewritten is copied |
| `SurfaceArmTexts.LineIsWritten` | scripts/migrate_syntax_surface.py:213-246 | the text of every rewritten line, with or without line feed: `_`, `default` and `otherwise` become `otherwise then`, arms of `switch` take a colon, modern arms take `then`, and every other pattern goes between `when` and `then`, behind its indentation |
| `WireFormat.ReadVarint` | scripts/validate_r1801_onnx_import_export.py:26-36 | the shift-and-or loop returns the base 128 value and the index behind it, or the truncation error |
| `WireFormat.ReadLen` | scripts/validate_r1801_onnx_import_export.py:39-44 | a length and that many bytes, or the error |
| `WireFormat.Skip` | scripts/validate_r1801_onnx_import_export.py:47-58 | the index behind a field of each wire type, fixed widths unchecked |
| `WireFormat.ReadKey` | scripts/validate_r1801_onnx_import_export.py:65-67 | field number and wire type of a key |
| `WireFormat.NodeTurn` | scripts/validate_r1801_onnx_import_export.py:64-72 | one field of a node: its operator or its error, and a strictly larger index |
| `WireFormat.NodeOps` | scripts/validate_r1801_onnx_import_export.py:61-73 | the loop over a node returns the operators the node says |
| `WireFormat.GraphPayload` | scripts/validate_r1801_onnx_import_export.py:96-103 | what a graph field adds to operators, inputs and outputs |
| `WireFormat.GraphTurn` | scripts/validate_r1801_onnx_import_export.py:92-105 | one field of a graph |
| `WireFormat.ScanGraph` | scripts/validate_r1801_onnx_import_export.py:91-105 | the inner loop counts what the graph says |
| `WireFormat.ModelGraph` | scripts/validate_r1801_onnx_import_export.py:88-105 | a graph field counts one graph and everything in it |
| `WireFormat.ModelMessage` | scripts/validate_r1801_onnx_import_export.py:88-108 | the branches for graph and opset fields |
| `WireFormat.ModelTurn` | scripts/validate_r1801_onnx_import_export.py:84-110 | one field of the model |
| `WireFormat.ParseOnnx` | scripts/validate_r1801_onnx_import_export.py:76-111 | the three nested loops return the summary of the walk over all fields, or its first error |
| `WireTheorems.VarintRoundTrip` | scripts/validate_r1801_onnx_import_export.py:26-36 | every number is read back from its encoding, in front of any bytes |
| `WireTheorems.ReadsField` | scripts/validate_r1801_onnx_import_export.py:39-58 | every field is read back from its encoding, with its exact size |
| `WireTheorems.RoundTrip` | scripts/validate_r1801_onnx_import_export.py:61-111 | walking the encoding of any nested message notes exactly what the message says, at every level |
| `WireTheorems.ModelRoundTrip` | scripts/validate_r1801_onnx_import_export.py:76-111 | parsing the encoding of any model yields its operators in order, its counts and its opset flag, and ends at the length |
| `WireCounts.ModelIsReported` | scripts/validate_r1801_onnx_import_export.py:76-111 | parsing the encoding of any model reports the number of its graphs, the operator names of all nodes in order, how many inputs (field 11) and outputs (field 12) its graphs hold and whether it imports an operator set (field 8), all counted on the model; a name that is no text is the only error |
| `WireCounts.SmallModel` | scripts/validate_r1801_onnx_import_export.py:76-111 | the sixteen bytes of a model with one node and what is reported of them |
| `WireErrors.DamageIsReported` | scripts/validate_r1801_onnx_import_export.py:26-58 | behind any encoded model, a key or length that does not end, a payload shorter than its length and an unknown wire type each raise their own error, unless an operator name in front is no text |
| `WireErrors.GraphDamageIsReported` | scripts/validate_r1801_onnx_import_export.py:91-105 | the same for a damaged field inside a graph |
| `WireErrors.NodeDamageIsReported` | scripts/validate_r1801_onnx_import_export.py:61-73 | and inside a node of a graph |
| `WireTheorems.WalkAppend` | scripts/validate_r1801_onnx_import_export.py:84-110 | walking a text that ends exactly and then another is walking their concatenation |
| `WireTheorems.ConcatenationMerges` | scripts/validate_r1801_onnx_import_export.py:76-111 | such texts parse to the merged summary: operators appended, counts added, flags or-ed |
| `WireTheorems.MergeLaw` | scripts/validate_r1801_onnx_import_export.py:76-111 | a text merges with every text that may follow it if and only if it ends exactly |
| `WireTheorems.OverrunSwallows` | scripts/validate_r1801_onnx_import_export.py:47-58 | a text whose last fixed-width field runs past its end swallows an appended graph or fails on it |
| `WireTheorems.OverrunExample` | scripts/validate_r1801_onnx_import_export.py:47-58 | a concrete text that parses, overruns and does not merge with an empty graph |
| `WireTheorems.ExactnessComposes` | scripts/validate_r1801_onnx_import_export.py:47-58 | the concatenation of texts that end exactly ends exactly |
| `LoweringTypes.CollectionSurvives` | scripts/generate_stdlib_catalog.py:150-164 | a collection type comes back from its flattened struct name if and only if its arguments are readable |
| `LoweringTypes.MapKeyExample` | scripts/generate_stdlib_catalog.py:162-164 | a concrete map type that does not come back |
| `LoweringExpressions.ClassifiedText` | scripts/generate_lowering_tables.py:849-893 | the case `render_ir` takes for a catalog text determines the text |
| `LoweringNames.TypeOfText` | scripts/generate_lowering_tables.py:849-893 | and every type is found again in its catalog text, results of results included |
| `LoweringNames.KindsAre` | scripts/generate_lowering_tables.py:869-872 | the ten collections by name |
| `LoweringNames.NameOfOne` | scripts/generate_lowering_tables.py:873 | the struct name of a collection of one plain element type is both names with an underscore between them |
| `LoweringNames.NameOfTwo` | scripts/generate_lowering_tables.py:873 | and that of a collection of two is all three |
| `LoweringTypeTheorems.FlatIsOneLine` | scripts/generate_lowering_tables.py:849-901 | the rendered lines, wrapped calls included, joined by spaces are one fixed expression per type |
| `LoweringTypeTheorems.ReadsCollapsed` | scripts/generate_stdlib_catalog.py:167-169 | the reader sees only the text with its whitespace collapsed |
| `LoweringTypeRoundTrip.TypeSurvives` | scripts/generate_stdlib_catalog.py:167-223 | a rendered type reads back as its catalog text if and only if its collection arguments are readable, at any nesting of results |
| `LoweringTypeRoundTrip.CollectionReads` | scripts/generate_stdlib_catalog.py:188-193 | the same for collections, names outside the identifier alphabet included |
| `LoweringTypeRoundTrip.ResultReads` | scripts/generate_stdlib_catalog.py:185-187 | a wrapped call reads as the result of what it wraps |
| `LoweringTypeRoundTrip.OptionReads` | scripts/generate_stdlib_catalog.py:194-204 | the option type reads back |
| `LoweringTypeRoundTrip.TensorReads` | scripts/generate_stdlib_catalog.py:205-215 | tensors of both element types, ranked or not, read back |
| `LoweringForms.OtherFormsAreRead` | scripts/generate_stdlib_catalog.py:170-222 | characters, floats of fixed width and integers of a computed width, which the generator never prints, are read |
| `LoweringDescriptors.ReadExpression` | scripts/generate_stdlib_catalog.py:134-147 | the bracket-counting loop returns the text up to the first comma outside brackets |
| `LoweringDescriptors.EndsAtFirstComma` | scripts/generate_stdlib_catalog.py:134-147 | an expression ends at the first comma with as many closing as opening brackets of the four kinds in front of it, or at the end of the text |
| `LoweringBrackets.TypeRuns` | scripts/generate_stdlib_catalog.py:134-147 | the reader's depth is the same behind a printed type as in front of it, and no comma outside brackets comes before its end |
| `LoweringRawText.RawReads` | scripts/generate_stdlib_catalog.py:167-169 | a type printed over several indented lines reads as on one line |
| `LoweringArmRoundTrip.StructArmReads` | scripts/generate_stdlib_catalog.py:226-240 | a struct arm that prints identifiers, followed by any text, gives the entry's flag and what its printed type reads as |
| `LoweringOddNames.OddArmIsRefused` | scripts/generate_stdlib_catalog.py:134-240 | a struct arm that prints a name outside the identifier alphabet, brackets included, is refused in whatever text it stands, wherever the reader takes the expression to end |
| `LoweringHelperArms.StructArmReadsBack` | scripts/generate_stdlib_catalog.py:226-240 | so every struct arm gives the entry's type and flag if and only if the type is readable |
| `LoweringHelperArms.HelperArmReads` | scripts/generate_stdlib_catalog.py:241-249 | a helper arm gives the helper's type and flag in each of its three widths, and no other helper is found in it |
| `LoweringHelperArms.SameTables` | scripts/generate_lowering_tables.py:80-91 | printer and reader list the same helpers |
| `LoweringHelperArms.ReturnReadsBack` | scripts/generate_lowering_tables.py:938-972 | reading back any emitted arm gives the entry's flag, and its return type if and only if the arm is a helper arm or the type is readable |
| `LoweringSymbols.ArmReadsBack` | scripts/generate_lowering_tables.py:904-972 | the whole descriptor: return type, flag and host symbol come back if and only if the arm is a helper arm or the type is readable; the symbol is the alias of the function if it has one, else its binding, and empty where a struct arm names a shared constant instead |
| `LoweringSymbols.SymbolIsRead` | scripts/generate_stdlib_catalog.py:226-249 | the quoted host symbol is found in every style and width, and nothing else is taken for it |
| `LoweringSymbols.SymbolComesBack` | scripts/generate_stdlib_catalog.py:226-249 | a descriptor read from an emitted arm holds the alias or else the binding of the function if and only if the arm is not one with a shared constant; then the symbol is empty |
| `LoweringSymbols.SharedSymbolExample` | scripts/generate_stdlib_catalog.py:226-240 | a concrete entry whose symbol is read as the empty text |
| `LoweringSymbols.SharedArmNamesConstant` | scripts/generate_lowering_tables.py:904-910 | a struct arm of a shared function without alias names its constant on its second line |
| `LoweringSymbols.ConstantExample` | scripts/generate_lowering_tables.py:842-846 | the constant of `fs.fs_read` is `STD_FS_FS_READ_BINDING` |
| `LoweringPrinted.ScalarTypes` | scripts/generate_lowering_tables.py:67-74 | the expression printed for each scalar type |
| `LoweringPrinted.FlatStructs` | scripts/generate_lowering_tables.py:75-76 | the one-line structs |
| `LoweringPrinted.CollectionType` | scripts/generate_lowering_tables.py:869-879 | the four lines of a collection type, at any indentation |
| `LoweringPrinted.OptionType` | scripts/generate_lowering_tables.py:859-868 | the seven lines of the option type |
| `LoweringPrinted.TensorType` | scripts/generate_lowering_tables.py:880-892 | the seven lines of a tensor type, with its element type and rank |
| `LoweringPrinted.ResultType` | scripts/generate_lowering_tables.py:856-901 | a result type puts the call in front of the first and its bracket behind the last line of what it wraps, however often |
| `LoweringPrinted.HelperLines` | scripts/generate_lowering_tables.py:950-957 | the lines of a helper arm: one if it fits 100 columns, else three with the call in braces if that fits 60 and its line 100 columns, else three with the symbol on its own |
| `LoweringPrinted.HelperAccepts` | scripts/generate_lowering_tables.py:942-949 | a helper arm is emitted if and only if the helper is the one listed for the entry's return type and flag |
| `LoweringPrinted.StructLines` | scripts/generate_lowering_tables.py:959-972 | the lines of a struct arm: head, symbol, the lines of the type, flag and end |
| `LoweringPrinted.DefaultStyleIs` | scripts/generate_lowering_tables.py:932-935 | the style of a function without a marker, return type by return type |
| `LoweringPrinted.FirstListingDecides` | scripts/generate_lowering_tables.py:913-928 | the first listing of a function decides its style: its marker, else the default of the file |
| `LoweringPrinted.UnlistedHasNoStyle` | scripts/generate_lowering_tables.py:917-929 | a function no group lists has none |
| `LoweringPrinted.FileFront` | scripts/generate_lowering_tables.py:976-985 | the lines of a file in front of its arms and behind them |
| `LoweringBlocks.TypeAhead` | scripts/generate_lowering_tables.py:1283-1291 | every line of a printed type keeps the layout reader's counter positive, and the last one restores it |
| `LoweringArmStyles.EmittedIsArm` | scripts/generate_lowering_tables.py:938-972 | in every emitted arm the bracket counter reaches zero on the last line and not before, the head names the entry and the style is recognised |
| `LoweringLayout.RenderGroup` | scripts/generate_lowering_tables.py:986-994 | the loop over a group appends banner and arms, or fails where an arm does |
| `LoweringLayout.WriteFile` | scripts/generate_lowering_tables.py:975-996 | the loops of `render_file` write header, signature, groups and tail |
| `LoweringLayout.ReadBlock` | scripts/generate_lowering_tables.py:1281-1292 | the inner loop stops behind the first line on which the counter is not positive |
| `LoweringLayout.TakeTurn` | scripts/generate_lowering_tables.py:1268-1304 | one turn of the scan: a banner line, a line passed over or a whole arm |
| `LoweringLayout.ScanArms` | scripts/generate_lowering_tables.py:1264-1304 | the scan takes turns until the end of the match |
| `LoweringLayout.FindLine` | scripts/generate_lowering_tables.py:1264-1265 | the first line that is the given text but for whitespace |
| `LoweringLayout.FindFunction` | scripts/generate_lowering_tables.py:1259-1263 | the name on the first line that declares the lookup function |
| `LoweringLayout.ExtractLayout` | scripts/generate_lowering_tables.py:1249-1311 | the loops of `extract_layout` compute the function's name, the sections and the majority style of the file |
| `LoweringLayoutTheorems.ExtractGathers` | scripts/generate_lowering_tables.py:1249-1311 | the layout read from any rendered file is what its groups gather to, with the majority of the arms written |
| `LoweringLayoutTheorems.FunctionIsRead` | scripts/generate_lowering_tables.py:1259-1263 | the function's name read from a rendered file is the layout's if and only if it holds no opening bracket |
| `LoweringLayoutTheorems.MajorityIsKept` | scripts/generate_lowering_tables.py:1308-1310 | regrouping arms never changes the majority style |
| `LoweringLayoutTheorems.MajorityIs` | scripts/generate_lowering_tables.py:1309-1310 | the style of a file is `struct` if more than half of its arms are struct arms, else `helper` |
| `LoweringLayoutTheorems.GatheredExactly` | scripts/generate_lowering_tables.py:1300-1306 | groups gather to themselves if and only if they are non-empty, except a last banner, and neighbours of one module are separated by a banner |
| `LoweringLayoutTheorems.LayoutSurvives` | scripts/generate_lowering_tables.py:1249-1311 | `extract_layout` of a rendered file returns the same function, groups, banners, names, styles and file style if and only if the name has no bracket, the groups are normal in that sense and the file's style is that of most of its arms |
| `LoweringSourceCheck.CheckFromSource` | scripts/generate_lowering_tables.py:1314-1357 | the comparison of a table file with the layout reports a wrong function, style, group or arm |
| `LoweringSourceCheck.CleanMeansSame` | scripts/generate_lowering_tables.py:1328-1357 | nothing is reported if and only if the file holds the layout with the styles the generator would emit |
| `LoweringReports.MismatchesAre` | scripts/generate_lowering_tables.py:1328-1357 | each kind of mismatch is reported if and only if there is one: another function, another file style, other groups, and if the groups agree every arm found in another style |
| `LoweringSourceCheck.RenderedIsClean` | scripts/generate_lowering_tables.py:1314-1357 | a freshly rendered file is reported clean if and only if the name has no bracket, the groups are normal and the file's style is that of most of its arms |
| `LoweringPlacement.CollectSlots` | scripts/generate_lowering_tables.py:1134-1144 | the first loop finds the places of each module's groups and its listed names |
| `LoweringPlacement.CollectAdditions` | scripts/generate_lowering_tables.py:1146-1153 | the second loop adds the new functions at the only place of their module, in catalog order |
| `LoweringPlacement.PlaceNewFunctions` | scripts/generate_lowering_tables.py:1124-1162 | the three loops extend every group by the new functions of its module |
| `LoweringCoverage.CheckCoverage` | scripts/generate_lowering_tables.py:1165-1195 | the check reports missing, stale and doubly owned functions of every module that is emitted |
| `LoweringCoverage.PlacementAddsNew` | scripts/generate_lowering_tables.py:1146-1162 | placement adds exactly one arm for each catalog function that is new and changes no other count |
| `LoweringOrder.PlacementKeepsOrder` | scripts/generate_lowering_tables.py:1146-1162 | placement keeps files, groups, banners and listed functions in order, and behind those of a group come exactly the new functions of its module, in catalog order and without markers |
| `LoweringCoverage.PlacementKeepsDistinct` | scripts/generate_lowering_tables.py:1124-1162 | a layout without duplicates stays without duplicates |
| `LoweringCoverage.PlacementIsIdempotent` | scripts/generate_lowering_tables.py:1124-1162 | placing again adds nothing |
| `LoweringCoverage.CleanMeansCovered` | scripts/generate_lowering_tables.py:1180-1195 | for layouts that list only catalog functions the check is clean if and only if each owned module emits its catalog functions without the excluded ones and no exclusion is stale |
| `LoweringReports.ProblemsAre` | scripts/generate_lowering_tables.py:1181-1195 | of every emitted module, the functions reported as missing, stale or both are exactly those that are neither listed nor excluded, excluded but unknown, or listed and excluded |
| `LoweringCoverage.RenderedTablesAreComplete` | scripts/generate_lowering_tables.py:1211-1227 | the same for layouts all of whose files render |
| `LoweringCatalogRoundTrip.PlacementCovers` | scripts/generate_lowering_tables.py:1124-1195 | placement covers a module if and only if its exclusions are catalog functions without an arm and the module has one group or lists every other function itself |
| `LoweringCatalogRoundTrip.PlacedCheckIsClean` | scripts/generate_lowering_tables.py:1124-1195 | the coverage check of the placed layouts is clean if and only if every owned module is of that kind |
| `LoweringArmScan.ReadTable` | scripts/generate_stdlib_catalog.py:255-261 | the loop over the matches of a table text inventories every arm with the text up to the next one |
| `LoweringArmScan.ReadTables` | scripts/generate_stdlib_catalog.py:251-262 | the loop over the tables inventories all of them |
| `LoweringArmScan.DecidedInside` | scripts/generate_stdlib_catalog.py:94 | whether the arm pattern matches at a place does not depend on what follows the text that decides it |
| `LoweringPattern.HeadAccepts` | scripts/generate_stdlib_catalog.py:94 | the pattern takes a head with any whitespace between its parts, in front of any text, and finds its two names |
| `LoweringPattern.LowerNamesAre` | scripts/generate_stdlib_catalog.py:94 | the names it takes, character by character |
| `LoweringTableText.HeadMatches` | scripts/generate_stdlib_catalog.py:94 | the head of a printed arm matches the pattern if and only if its names are lower-case |
| `LoweringTableText.EmittedBodySkips` | scripts/generate_stdlib_catalog.py:94 | no arm starts behind the head of an emitted arm, in any style and width |
| `LoweringTableRoundTrip.FileHolds` | scripts/generate_stdlib_catalog.py:251-262 | scanning a rendered file finds exactly the listed functions in order, and reads each as the catalog has it if and only if its type is readable |
| `LoweringTableRoundTrip.TableSurvives` | scripts/generate_stdlib_catalog.py:251-262 | the inventory of a rendered file is the catalog's part of it if and only if every listed name is lower-case and every listed type is readable |
| `LoweringTails.MatchTailIsRemarks` | scripts/generate_lowering_tables.py:162-166 | the lines behind the last arm of most tables hold neither an arm nor a descriptor, as the round trip asks of a tail |
| `LoweringTails.ApiTailIsRemarks` | scripts/generate_lowering_tables.py:168-176 | neither do those of the `std.api` table, with its introspection function |
| `LoweringCatalogRoundTrip.CatalogSurvives` | scripts/generate_stdlib_catalog.py:251-262 | catalog to tables and back: the inventory of all tables written for the placed layouts holds only the catalog's return types, flags and host symbols, and holds a module as a whole if and only if placement covers it |
| `BenchmarkStatistics.TrimmingKeepsMedian` | scripts/phase31_run_all.py:635-642 | symmetric trimming of the sorted samples never moves their median |
| `BenchmarkStatistics.TrimmingShrinksVariance` | scripts/phase31_run_all.py:635-649 | it never increases their population variance, as exact ratios |
| `BenchmarkStatistics.VarianceIgnoresOrder` | scripts/phase31_run_all.py:636-649 | sorting the samples does not change their variance |
| `BenchmarkStatistics.HalvedTruncates` | scripts/phase31_run_all.py:642 | a median is truncated toward zero |
| `BenchmarkAggregation.GatherSamples` | scripts/phase31_run_all.py:624-627 | the samples of a language, one per attempt, in order |
| `BenchmarkAggregation.AggregateTables` | scripts/phase31_run_all.py:622-650 | the loop over the languages aggregates each of them |
| `BenchmarkReport.MeasuredRecord` | scripts/phase31_run_all.py:624-650 | the record of a language every attempt measured: all samples in order, their truncated median, the smallest and largest samples as outliers and the others as stable ones, and the integer part of the deviation of the stable ones, which is not above that of all |
| `BenchmarkReport.FailedRecord` | scripts/phase31_run_all.py:628-630 | the record of any other language: the error and nothing else |
| `BenchmarkReport.VarianceIsMeanSquare` | scripts/phase31_run_all.py:649 | the fraction compared is the mean of the squared deviations from the mean |
| `BenchmarkReport.StableAndOutliers` | scripts/phase31_run_all.py:633-641 | from five samples on, if three remain, the smallest and largest are the outliers and the others the stable ones, all in ascending order and none lost; else every sample is stable, in the order of the attempts |
| `BenchmarkReport.SixAreKept` | scripts/phase31_run_all.py:635-641 | with the trim count of the source, outliers are set aside if and only if there are five or at least seven samples, a fifth of them rounded up on each side |
| `BenchmarkReport.SixExample` | scripts/phase31_run_all.py:635-648 | six concrete samples without an outlier |
| `BenchmarkAggregation.AllCorrect` | scripts/phase31_run_all.py:664-666 | the conjunction of all flags |
| `BenchmarkAggregation.TakeSnapshots` | scripts/phase31_run_all.py:654-663 | one snapshot per attempt |
| `BenchmarkAggregation.Aggregate` | scripts/phase31_run_all.py:613-666 | the first record, and no other, is overwritten by the aggregate; the first snapshot already shows it |
| `BenchmarkAggregation.AggregateAgain` | scripts/phase31_run_all.py:951-980 | the second aggregation works on the list whose first record holds the first aggregate |
| `BenchmarkAggregation.AggregateScenario` | scripts/phase31_run_all.py:931-981 | one or two rounds: the entry is correct only if every attempt was, and a language has a value if and only if every attempt measured it |
| `BenchmarkAggregation.MeasuredWhenAll` | scripts/phase31_run_all.py:628-630 | an aggregate has a value if and only if no attempt lacks one |
| `BenchmarkAggregation.MeasuredAgain` | scripts/phase31_run_all.py:951-980 | the same for a second round over the mutated list |
| `BenchmarkAggregation.TrimmingIsHonest` | scripts/phase31_run_all.py:631-649 | trimming moves the reported median nowhere and the reported deviation never up |
| `BenchmarkAggregation.ReportedMedian` | scripts/phase31_run_all.py:631-642 | the reported value is the truncated median of all samples |
| `BenchmarkAggregation.SecondRoundSamples` | scripts/phase31_run_all.py:951-980 | the second round's samples are the raw ones if and only if the first attempt's sample was the first round's median |
| `BenchmarkStatistics.FirstExchanged` | scripts/phase31_run_all.py:631-642 | exchanging the first sample keeps the median if and only if both clamp to the same value around the middle of the others |
| `BenchmarkAggregation.SecondRoundMedian` | scripts/phase31_run_all.py:951-980 | the value the second round reports, and its median is that of all raw samples if and only if the first aggregate and the first sample clamp alike |
| `BenchmarkAggregation.SecondRoundReport` | scripts/phase31_run_all.py:951-980 | for an odd number of samples the truncated reports agree under the same condition |
| `BenchmarkAggregation.SecondRoundCanMoveTheMedian` | scripts/phase31_run_all.py:951-980 | concrete attempts for which the second round reports 5 although the median of all samples is 3 |
| `Fingerprint.FnvKeepsApart` | compiler/build.rs:96-107 | different states stay different over any bytes, modulo 2 to the 64 |
| `Fingerprint.OneByteShows` | compiler/build.rs:96-107 | streams that differ in exactly one byte have different fingerprints |
| `Fingerprint.KnownValues` | compiler/build.rs:96-107 | the published FNV-1a values of the empty text and of `a` |
| `StdlibBundle.BuildModuleName` | compiler/build.rs:31-50 | the loop over path components joins the normalised segments, or fails on an invalid one |
| `StdlibBundle.NameOfChild` | compiler/build.rs:31-50 | the root is `std`; a file or directory adds a dot and its name with underscores for dashes, if and only if that is a segment |
| `StdlibBundle.NamesConfuseOnlyDashes` | compiler/build.rs:35-49 | two paths have one module name if and only if they differ only in dashes and underscores |
| `StdlibBundle.ModuleNameIsName` | compiler/build.rs:39-49 | module names are dotted identifiers, so they hold no zero byte |
| `StdlibBundle.Utf8HasNoFF` | compiler/build.rs:98-102 | UTF-8 text (section 4 of RFC 3629) holds no byte 0xFF |
| `StdlibBundle.StreamIsInjective` | compiler/build.rs:97-102 | the hashed stream determines the list of modules and sources |
| `StdlibBundle.ComputeFingerprint` | compiler/build.rs:96-107 | the nested loops compute FNV-1a of the stream with 64-bit wrap-around |
| `StdlibBundleTheorems.CheckAdjacent` | compiler/build.rs:83-85 | the window loop accepts exactly lists without equal neighbours |
| `StdlibBundleTheorems.BuildAcceptsExactlyDistinctNames` | compiler/build.rs:81-85 | sorting and checking neighbours accepts exactly the lists with distinct names, and the result is strictly increasing |
| `StdlibBundleTheorems.NamesAscend` | compiler/build.rs:81 | a module stands before another one exactly as its name does: a prefix first, else the smaller character where they first differ |
| `StdlibBundleTheorems.ModuleBytes` | compiler/build.rs:97-102 | the bytes of a module in the stream, one by one |
| `StdlibBundleTheorems.EmptyBundleId` | compiler/build.rs:96-108 | the id of a bundle without modules, sixteen digits long |
| `StdlibBundleTheorems.OrderDoesNotMatter` | compiler/build.rs:81-108 | the bundle, and with it its id, does not depend on the order in which modules were found |
| `StdlibBundleTheorems.IdsFollowFingerprints` | compiler/build.rs:108 | two bundle ids are equal if and only if the fingerprints are |
| `StdlibBundleTheorems.EveryEditShows` | compiler/build.rs:81-108 | changing one byte of one source changes the bundle id |
| `ArtifactContainer.MakeContainer` | scripts/generate_r3005_fixtures.py:16-51 | the loop over the arrays and the sealing compute the container |
| `ArtifactContainer.CheckArrays` | scripts/validate_r1803_rag_toolkit.py:66-74 | the table loop accepts exactly tables whose entries are in bounds and match their digests, a later name replacing an earlier one |
| `ArtifactContainer.ValidateContainer` | scripts/validate_r1803_rag_toolkit.py:33-74 | header, length, digest, manifest and array checks |
| `ArtifactTheorems.HeaderRoundTrip` | scripts/generate_r3005_fixtures.py:13-50 | a little-endian header unpacks to itself in front of any bytes |
| `ArtifactTheorems.ValuesRoundTrip` | scripts/generate_r3005_fixtures.py:19-23 | two's complement integers and doubles unpack to the values packed |
| `ArtifactBytes.PackedAt` | scripts/generate_r3005_fixtures.py:21 | each byte of a packed integer, in two's complement and lowest byte first |
| `ArtifactBytes.SealedIsFile` | scripts/generate_r3005_fixtures.py:49-51 | `SPARART1`, version 1, both lengths in eight bytes, manifest, payload and the digest of all that, byte by byte |
| `ArtifactBytes.WrittenIsFile` | scripts/generate_r3005_fixtures.py:16-51 | a written container is such a file with its own manifest and packed arrays |
| `ArtifactTheorems.WrittenTiles` | scripts/generate_r3005_fixtures.py:19-35 | the table's stretches tile the payload without gap or overlap and hold the arrays |
| `ArtifactTheorems.WrittenPasses` | scripts/generate_r3005_fixtures.py:16-51 | every written container passes all checks and shows its own table and payload |
| `ArtifactTheorems.WrittenDecodes` | scripts/generate_r3005_fixtures.py:16-51 | every array decodes from the written container |
| `ArtifactTheorems.PrefixIsRefused` | scripts/validate_r1803_rag_toolkit.py:34-42 | no strict prefix of an accepted file is accepted |
| `ArtifactTheorems.ExtensionIsRefused` | scripts/validate_r1803_rag_toolkit.py:34-42 | no extension of an accepted file is accepted |
| `ArtifactTheorems.OtherDigestIsRefused` | scripts/validate_r1803_rag_toolkit.py:39-42 | no other last 32 bytes are accepted, for any digest function |
| `ArtifactBytes.ForeignIsRefused` | scripts/validate_r1803_rag_toolkit.py:35-36 | a file with another magic or another version is refused |
| `ArtifactBytes.DamagedIsRefused` | scripts/validate_r1803_rag_toolkit.py:67-74 | a file is refused if an entry, the last one with its name, lies outside the payload or has another checksum than its stretch |
| `ArtifactBytes.AcceptedWhenUndamaged` | scripts/validate_r1803_rag_toolkit.py:44-74 | a file with envelope and manifest is accepted if and only if there is no such entry |
| `ArtifactTheorems.RewriteReseals` | scripts/generate_r3005_fixtures.py:54-62 | any edit of an accepted file's manifest keeps the payload and gives an accepted envelope with the edited manifest, unless its length does not fit the header |
| `ArtifactTheorems.RewriteKeepsArrays` | scripts/generate_r3005_fixtures.py:54-62 | an edit that leaves the table alone keeps the file passing |
| `EmbeddedSplice.LineOffsets` | scripts/migrate_embedded_spectra_in_python.py:74-78 | the loop returns the running lengths of the lines |
| `EmbeddedSplice.BreaksAre` | scripts/migrate_embedded_spectra_in_python.py:74-78 | exactly ten characters end a line, and a carriage return with its line feed ends one |
| `EmbeddedSplice.OffsetsAgree` | scripts/migrate_embedded_spectra_in_python.py:74-78 | the offsets are those of the lines the tokenizer counts if and only if no other line break has text behind it |
| `EmbeddedSplice.PlaceHoldsCharacter` | scripts/migrate_embedded_spectra_in_python.py:81-83 | the place of a position holds the character the tokenizer sees there |
| `EmbeddedSplice.PositionsAreFound` | scripts/migrate_embedded_spectra_in_python.py:74-83 | every line and column, line ends included, is mapped to its place if and only if no other break stands before a line feed with text behind it |
| `EmbeddedSplice.FormFeedMovesPositions` | scripts/migrate_embedded_spectra_in_python.py:74-83 | a concrete text in which the start of the second line is mapped to the wrong index |
| `EmbeddedSplice.ApplyReplacements` | scripts/migrate_embedded_spectra_in_python.py:128-131 | splicing sorted, disjoint replacements from right to left makes all of them at once |
| `EmbeddedSplice.OwnTexts` | scripts/migrate_embedded_spectra_in_python.py:128-131 | replacing any stretches by the text they hold gives back the text |
| `ExecutionGate.UpdateBaseline` | scripts/validate_execution_coverage.py:439-492 | the loop records every observation, or refuses if a fixture fails |
| `ExecutionGate.RunGate` | scripts/validate_execution_coverage.py:391-451 | the gating run reports the fixtures with a failing verdict, recorded skips and known hangs carried forward |
| `ExecutionGate.RegressionIsReported` | scripts/validate_execution_coverage.py:348-365 | an executable fixture that is run and has a record is reported if and only if a pipeline of the mode, not recorded as hanging, changed its status or does not exit with the code of the sidecar or else of the record |
| `ExecutionGate.HangIsCarried` | scripts/validate_execution_coverage.py:402-418 | a known hang is judged by its record alone |
| `ExecutionGate.CompileRegression` | scripts/validate_execution_coverage.py:339-346 | a compile-only fixture is reported if and only if it timed out or ended otherwise than recorded |
| `ExecutionGate.ChangedKind` | scripts/validate_execution_coverage.py:336-337 | a fixture of another kind than recorded is reported, unless its record says skip or hang |
| `ExecutionGate.SkipIsKept` | scripts/validate_execution_coverage.py:396-401 | a fixture recorded as skipped is never reported |
| `ExecutionGate.NewFixture` | scripts/validate_execution_coverage.py:306-332 | a fixture without a record is reported unless it is skipped, compiles, or exits as its sidecar says, with zero where there is none |
| `ExecutionGate.RegressionExample` | scripts/validate_execution_coverage.py:348-365 | a run that exited with 0 and exits with 1 is reported |
| `ExecutionGate.UpdateRecords` | scripts/validate_execution_coverage.py:456-491 | what an update writes down of each fixture, field by field |
| `ExecutionGate.RecordedThenGated` | scripts/validate_execution_coverage.py:260-365 | a fixture recorded and gated again fails if and only if a pipeline neither hung nor exited with the recorded code |
| `ExecutionGate.RecordThenGate` | scripts/validate_execution_coverage.py:456-506 | after a successful update, gating the same observations reports exactly those fixtures |
| `ExecutionGate.GateIsSilent` | scripts/validate_execution_coverage.py:456-506 | the gate is silent if and only if every pipeline of every executable fixture hung or exited with the recorded code |
| `ExecutionGate.PlainGateIsAgreement` | scripts/validate_execution_coverage.py:260-371 | without sidecars and hangs it is silent if and only if both pipelines agree |
| `ExecutionGate.UpdateIsWritten` | scripts/validate_execution_coverage.py:288-307 | an update is written if and only if no fixture is in error, compile fixtures compile, executable ones build ahead of time in the mode with both pipelines, and no skip was added to a recorded fixture; it holds exactly the observed fixtures |
| `ExecutionGate.FailingRunIsRecorded` | scripts/validate_execution_coverage.py:288-307 | in jit mode a fixture whose run exits with 1 is recorded |
| `ExecutionGate.AddedSkipIsStuck` | scripts/validate_execution_coverage.py:279-284 | a skip sidecar added to a recorded fixture makes the gate report it and every update refuse it |
| `ExecutionGate.AddedSkipExample` | scripts/validate_execution_coverage.py:279-284 | a concrete observation and baseline with that outcome |
| `ExecutionGate.GateSeesOnlyItsFixtures` | scripts/validate_execution_coverage.py:391-451 | a gating run reports only fixtures it was given; a silent one means that every recorded fixture is observed and keeps its record if and only if no recorded fixture is gone |
| `ExecutionGate.MissingFixtureExample` | scripts/validate_execution_coverage.py:391-451 | a concrete observation and baseline: a recorded fixture is gone and the gate is silent |
| `ExecutionGate.PartialUpdateForgets` | scripts/validate_execution_coverage.py:439-502 | after an update from some fixtures a full gate judges those by their record and all others as new |
| `ExecutionGate.PartialUpdateExample` | scripts/validate_execution_coverage.py:439-502 | a concrete fixture that the gate accepts before another one is updated alone, and rejects afterwards |

## Left out

- The compiler, midend, backend and runtime themselves.
- Files, processes, clocks, command lines, reports and printed text of all scripts; a file is its text or bytes.
- `migrate_source` as a whole: the two import rewritings in front of the two passes that are modelled, and the two switch substitutions behind them; so nothing is said about `--check`, which compares the result of all six steps.
- `SurfaceSecondRun.SecondRun`: for texts that hold no marker, a name internal to the migration; `SurfaceArrows.SecondRunIsClean` is without that condition.
- Unicode classes of `\w` and `\d`: names, digits and words are ASCII; whitespace is that of `str.isspace`.
- Decoding of UTF-8 operator names: any decoding function is allowed.
- Splitting of a group's `names` text into items and `@` markers: a group holds its items.
- The wording of a table file's comment header: any lines, each commented out.
- The prefixes `std.` and `std.api.` of inventoried names: a function is its module and name, and the tables read together are those of one prefix.
- The numeric table, which is not driven by the layout.
- `LoweringSymbols.ArmReadsBack`: what follows an arm without a quoted symbol in front of its type, that is a helper arm or one with a shared constant, mentions no helper, type or symbol, which `LoweringTableRoundTrip.FileHolds` shows for rendered files; bindings and aliases are dotted names (`LoweringArms.IsEntry`), as all of the catalog's are.
- `LoweringArmRoundTrip.StructArmReads`: for names of identifier characters; `LoweringHelperArms.StructArmReadsBack` is without that condition.
- `LoweringBrackets.TypeRuns`: for struct names without brackets, since a bracket in a name moves the counter.
- `LoweringBlocks.TypeAhead`: for struct names without brackets, for the same reason.
- `LoweringArmStyles.EmittedIsArm`: for struct names without brackets, for the same reason.
- `LoweringLayoutTheorems.LayoutSurvives`: banners are comment lines, the tail starts with the fallback arm, and struct arms print names without brackets, as the tables of the repository do.
- `LoweringTableRoundTrip.TableSurvives`: header, banners and tail hold neither arms nor descriptors, and the lookup function's name has no bracket; `LoweringTails.MatchTailIsRemarks` and `LoweringTails.ApiTailIsRemarks` show it for the repository's two tails.
- `LoweringCatalogRoundTrip.CatalogSurvives`: for placed layouts all of whose files render with lower-case names and readable types, which `TableSurvives` shows to be necessary file by file.
- `LoweringSourceCheck.CheckFromSource`: for one file that exists, and without the text of a report, which names the first group that differs.
- `LoweringCoverage.CheckCoverage`: without the numeric clause, and as a set of problems without their order.
- `LoweringCoverage.RenderedTablesAreComplete`: without the numeric file.
- `BenchmarkAggregation.TakeSnapshots`: a snapshot keeps results and flag, not the other fields that are copied.
- `BenchmarkAggregation.Aggregate`: without the gaps and the async-echo fields, which are computed from the aggregated values.
- `BenchmarkAggregation.SecondRoundReport`: for an even number of samples the truncated reports can agree although the medians differ by one half; `SecondRoundMedian` gives both.
- `ArtifactContainer.ValidateContainer`: without the schema, role, metadata and shape checks of `validate_index`, which are constants of one example.
- `ArtifactTheorems.ValuesRoundTrip`: a double is its eight bytes.
- Floating point: the trim count is any function of the number of samples, with `BenchmarkReport.TwentyPercent` for the exact ceiling; medians and variances are exact, the reported deviation is the integer root.
- SHA-256 and JSON: any 32-byte digest, any manifest codec whose decoding undoes its encoding; checksums are kept as digests, not as hexadecimal text.
- The Python tokenizer: replacements are given sorted and disjoint, as tokens are.
- Text of statuses and notes in the execution gate: a status is a value of a datatype, rendered injectively by the source.
