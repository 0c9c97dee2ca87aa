# Array text codec and inventory event protocol: a verified model

This project models two parts of the real-time supply chain repository in Dafny and proves
properties of them.

- **The PostgreSQL array text codec** (`pkg/sdks/sqldb/dbarray`), the format of section 8.15.6 of
  the PostgreSQL documentation, with the bytea formats of section 8.4: the goto-driven array
  parser, the recursive printer, the typed columns on top of them, and the bytea codec inside them.
- **The inventory event protocol** (`services/inventory`, `services/shipment`): handlers that read
  a stock row, clamp quantities and write the whole row back without a transaction, under an
  at-least-once broker with redelivery and dead-lettering, behind two idempotency middlewares.

Code that changes state step by step is modelled as methods with loops, arrays and classes. Each
method is proved equal to a specification function, and the theorems are about those functions.
Interleavings are modelled as runs of a step function over all sequences of steps.

## Files

| file | content |
|---|---|
| `Bytes.dfy` | bytes, ASCII constants, array elements, `Option` and `Result` |
| `Runs.dfy` | runs of a machine over a list of steps |
| `ArrayParser.dfy` | the parser: one function per label of the goto machine, and the imperative machine |
| `ArrayGrammar.dfy` | the format as a grammar of trees, independent of the parser |
| `ArrayLanguage.dfy` | the parser accepts exactly the grammar, any number of dimensions |
| `LinearArrays.dfy` | one-dimensional arrays, and facts about dimensions |
| `RaggedArrays.dfy` | which accepted texts are rectangular arrays |
| `ViablePrefixes.dfy` | when the parser's errors are forced by what it has read |
| `OddDelimiters.dfy` | the empty delimiter and delimiters that begin with an opening brace |
| `ArrayPrinter.dfy` | the printer and its chunked quoting loop |
| `NestedArrays.dfy` | round trips of nested arrays |
| `HollowArrays.dfy` | arrays with empty slices inside, and the round trip of every printable array |
| `ByteaCodec.dfy` | hex and escape formats |
| `WireFormat.dfy` | what is read and written, byte by byte |
| `Decimals.dfy` | decimal integers with a bit size |
| `TypedArrays.dfy`, `ColumnTypes.dfy` | the typed columns |
| `ColumnLanguage.dfy` | the texts each column scans and prints |
| `GenericArrays.dfy` | the generic array |
| `Stock.dfy`, `Handlers.dfy` | the stock row under interleaving, and the handlers as they run |
| `Delivery.dfy` | subscriber, delivery-count cutoff, check-then-mark middleware |
| `Redelivery.dfy` | the handlers under the broker: what redelivery can do to the stock |
| `WholeDeliveries.dfy` | one delivery with its handler, from arrival to settlement |
| `Claim.dfy` | claim-first middleware |

## What the proofs show

- The parser's result is known for every input and every nonempty delimiter, braces in it included. It
  succeeds with `dims` and `elems` if and only if the input is only braces, as many closing as
  opening, or the text of a tree whose first leaf is among the deepest, whose leaves are `elems`, and
  where `dims[j]` is the size of the *last* node at depth `j` and divides the number of leaves. It
  complains about sizes exactly when only that last clause fails.
- So a rectangular array is always accepted with its extents, and an array that is not is accepted
  exactly when its last sizes divide although a leaf lies less deep than the first or a node has
  another size than the last at its depth (`AcceptedThoughRagged`). `{{1,2,3},{4}}`,
  `{{1,2,3},{4},{5,6}}` and `{{1},1}` are such inputs; in one dimension there are none. The
  documentation's words about matching dimensions promise more than the code.
- With a one-byte delimiter other than the closing brace, a complaint about a byte is earned: every
  input that begins the same up to that byte meets the same error, while what stands before it can be
  completed; and the end of the input is complained about only when the input can be completed
  (`ErrorIsEarned`, `EndIsEarned`). With longer delimiters this can fail (`UnfinishedDelimiter`).
- With the empty delimiter the machine does not end exactly on the inputs that have quoted elements
  right after their opening braces and an opening brace right after these, such as `{"a"{`
  (`EmptyDelimiterDiverges`). With a delimiter that begins with an opening brace a text can be that of
  two trees (`TwoReadings`).
- Printing and parsing a rectangular nested array gives back its extents and leaves **if and only if**
  no extent is zero. An empty inner slice leaves no trace when another item follows it
  (`EmptySliceVanishes`), so `[[],[1]]` is printed as `{{1}}`. In last position it leaves the
  delimiter before it (`EmptySliceAtEnd`), and `[[1],[]]` is printed as `{{1},}`, which does not parse
  (`HollowLast`). For every printable array, `PrintedRoundTrip` says exactly when its text parses, and
  that the leaves then come back in order.
- In one dimension `dims[0]` is the number of elements for every nonempty delimiter, and every
  dimension of every result is positive: the machine never divides by zero and never drops an element.
- With every byte of the syntax written out: words between braces and commas are read as what they
  mean, where only the bare capital letters NULL are nil (`WordsParse`), and what is printed has a
  backslash before quotes and backslashes and nowhere else (`QuotingWrites`). Each typed column scans
  exactly the lists of its own texts: single letters, decimals within 64 or 32 bits, any text, hex
  pairs or escape pieces (`BoolScans`, `Int64Scans`, `Int32Scans`, `StringScans`, `ByteaScans`); NULL
  is an error for all of them but bytea, for which it has no bytes (`NullNeverScans`).
- Whatever the interleaving of handlers, the rows satisfy the table's CHECKs and order events with
  quantities that are not negative never attempt a write the table rejects. Stock balances against
  what was granted, released, shipped and restored up to exactly what stale writes overwrote; two
  interleaved orders for all available stock are both granted (`OrdersOversell`).
- Each handler's rows, publications and error are known in numbers, for every quantity: an order that
  asks for more than is available publishes just that, any other publishes the reservation and then
  the update, the others publish one update with their reason or pass in silence, and a missing row or
  one the table rejects is an error without a publication (`OrderPlacedExactly` and its three
  companions, `MissingRow`).
- A handler that returns an error has nevertheless changed the stock exactly when its write changes
  the row and one of its publications is refused (`ChangedThoughFailed`), and every retry acts again
  (`RetriesAct`). Under the broker a message causes at most as many accepted writes as its handler
  starts, and at most one start per delivery, in every run (`WritesBounded`). If no delivery crashes
  or overlaps, the delivery count can be read and acks and terms arrive, these are at most five
  (`FiveWrites`), any row then changes by what its messages came to and what stale writes overwrote,
  with at most five times the ordered quantity granted (`RowsChange`), and a publication that keeps
  being refused does reach five (`FiveReservations`).
- One uninterrupted delivery is one handling of its message (`DeliveryIsHandling`). It is acked with
  its id marked if handling does not fail (`HandledIsAcked`), given back or, from the fifth known
  delivery on, dead-lettered and terminated if it does, the stock changed or not
  (`FailedIsGivenBack`), and acked without being handled if its id is known (`KnownIsNotHandled`). A
  panic and an undecodable message are terminated at once (`PanicIsTerminated`,
  `UndecodableIsTerminated`).
- Check-then-mark acks only after marking: as long as the mark of an id does not expire, every acked
  message with that id has it marked, and once the store answers no handler starts for it again
  (`AckedHasMark`, `AckClosesGate`). Every delivery is in flight or has ended as exactly one of
  nakked, settled, lost and crashed (`EveryDeliveryCounts`). The delivery-count cutoff bounds naks by
  four, and so the deliveries of an open message by four besides those in flight, crashed or lost
  (`DeliveriesBounded`). It needs the message metadata to do so, and the bound on deliveries needs the
  terms to arrive (`RedeliveryUnbounded`).
- Claim-first runs a handler at most once per id and expiry, and always when there is no id
  (`NoIdAlwaysRuns`). It completes if and only if the call whose claim first stored the key was told
  so and returned success; every other call reports success as soon as its own claim call works,
  whatever became of the handler (`HandledExactly`). So a handler that fails is not run again and the
  redelivery reports success (`FailureThenSuccess`), and a claim that is stored but answered with an
  error is never handled at all (`LostClaim`).

## Model

| member | source | states |
|---|---|---|
| ArrayParser.ParseArray | pkg/sdks/sqldb/dbarray/dbarray.go:806-909 | the goto machine terminates on every input and nonempty delimiter, indexes only inside its buffers, never divides by zero, and returns the functional machine's result, error kinds and offsets included |
| ArrayParser.ReadElement | pkg/sdks/sqldb/dbarray/dbarray.go:828-873 | the loop labelled Element: opened braces reset their counters, one element is appended, and the machine continues in the delimiter loop |
| ArrayParser.ReadDelims | pkg/sdks/sqldb/dbarray/dbarray.go:875-887 | the delimiter loop counts one entry per delimiter or closing brace at its level and stops at a delimiter, at the end or with an error |
| ArrayParser.ReadQuoted | pkg/sdks/sqldb/dbarray/dbarray.go:838-857 | the escape-state loop reads a quoted element as the recursive scan does and stops after the closing quote |
| ArrayParser.ReadBare | pkg/sdks/sqldb/dbarray/dbarray.go:859-871 | the unquoted loop stops at the first delimiter or closing brace |
| ArrayParser.ReadItem | pkg/sdks/sqldb/dbarray/dbarray.go:838-872 | one element of either kind: cut off by the end, blank, or read with what follows, the bare word NULL becoming nil |
| ArrayParser.ReadCloses | pkg/sdks/sqldb/dbarray/dbarray.go:889-897 | the loop labelled Close, for arrays without elements |
| ArrayParser.Conclude | pkg/sdks/sqldb/dbarray/dbarray.go:898-908 | unclosed braces are an error, then every dimension must divide the element count; dividing is safe |
| ArrayParser.ScanLinearArray | pkg/sdks/sqldb/dbarray/dbarray.go:911-920 | more than one dimension is an error; otherwise the parser's elements |
| ArrayLanguage.ParseExact | pkg/sdks/sqldb/dbarray/dbarray.go:806-909 | for all inputs and all nonempty delimiters: parsing succeeds with these dimensions and elements if and only if the tree grammar gives the input this meaning |
| ArrayLanguage.RaggedExact | pkg/sdks/sqldb/dbarray/dbarray.go:901-907 | for all nonempty delimiters: the size error occurs exactly for texts of trees in which some last node's size does not divide the number of leaves |
| ArrayLanguage.ErrorsLocated | pkg/sdks/sqldb/dbarray/dbarray.go:809-899 | every other error names the byte that stands at its offset, or the end of the input, or the missing first brace |
| ViablePrefixes.ErrorIsEarned | pkg/sdks/sqldb/dbarray/dbarray.go:806-899 | for one-byte delimiters other than the closing brace: every input that begins with what has been read up to the byte complained about meets the same error, and what stands before that byte can be completed |
| ViablePrefixes.EndIsEarned | pkg/sdks/sqldb/dbarray/dbarray.go:806-899 | for the same delimiters: a nonempty input can be completed to one that gets through the syntax if and only if it gets through itself or the error is the missing closing brace |
| ViablePrefixes.UnfinishedDelimiter | pkg/sdks/sqldb/dbarray/dbarray.go:875-887 | an input that shows how this fails with a longer delimiter |
| RaggedArrays.AcceptedThoughRagged | pkg/sdks/sqldb/dbarray/dbarray.go:901-907 | for all nonempty delimiters and texts of trees: rectangular ones are always accepted with their extents, and exactly when one is accepted that is not rectangular |
| RaggedArrays.RegularExact | pkg/sdks/sqldb/dbarray/dbarray.go:901-907 | a tree is rectangular if and only if all leaves lie at one depth and every node is as large as the last at its depth |
| RaggedArrays.RegularShape | pkg/sdks/sqldb/dbarray/dbarray.go:901-907 | a rectangular tree has as many leaves as the product of its extents, all equally deep |
| RaggedArrays.NeverInOneDimension | pkg/sdks/sqldb/dbarray/dbarray.go:901-907 | with one dimension, accepted and rectangular are the same |
| RaggedArrays.RowsParse | pkg/sdks/sqldb/dbarray/dbarray.go:901-907 | for all lists of lists of digits, exactly which are accepted and which are rectangular |
| RaggedArrays.LastRowShort | pkg/sdks/sqldb/dbarray/dbarray.go:901-907 | `{{1,2,3},{4}}` is accepted with dimensions 2 and 1 |
| RaggedArrays.ProductAgrees | pkg/sdks/sqldb/dbarray/dbarray.go:901-907 | `{{1,2,3},{4},{5,6}}` is accepted with dimensions 3 and 2, which even multiply to its elements |
| RaggedArrays.MixedDepths | pkg/sdks/sqldb/dbarray/dbarray.go:828-907 | `{{1},1}`, an array and an element side by side, is accepted with dimensions 2 and 1 |
| OddDelimiters.TwoReadings | pkg/sdks/sqldb/dbarray/dbarray.go:828-882 | with a delimiter that begins with an opening brace, a text can be shown for a tree with too deep a leaf and parse as another tree |
| OddDelimiters.MachineParses | pkg/sdks/sqldb/dbarray/dbarray.go:806-909 | taken jump by jump, the goto machine halts with the parser's result for every nonempty delimiter |
| OddDelimiters.EmptyDelimiterDiverges | pkg/sdks/sqldb/dbarray/dbarray.go:828-887 | with the empty delimiter: exactly the inputs on which the machine never halts; on every other input with elements it halts with an error |
| ArrayLanguage.TreeReads | pkg/sdks/sqldb/dbarray/dbarray.go:828-887 | from any state of the machine, reading a tree's text appends its leaves, recounts its levels and stops right after it |
| ArrayLanguage.ElementIsTree | pkg/sdks/sqldb/dbarray/dbarray.go:828-887 | from any state inside braces, a run that gets through has read the text of a tree followed by a delimiter or closing brace |
| ArrayLanguage.RecountIs | pkg/sdks/sqldb/dbarray/dbarray.go:831-837 | the counters end with the size of the last node at each depth, and outer levels are untouched |
| ArrayLanguage.QuotedIsToken | pkg/sdks/sqldb/dbarray/dbarray.go:838-857 | whatever the escape loop reads is a quoted token of the grammar denoting the bytes read |
| ArrayLanguage.DenotesUnique | pkg/sdks/sqldb/dbarray/dbarray.go:806-909 | no text has two meanings |
| WireFormat.WordsParse | pkg/sdks/sqldb/dbarray/dbarray.go:806-909 | for any number of bare and quoted words between literal braces and commas: one dimension, and each word read as its bytes, the bare word 4E 55 4C 4C and no other as nil |
| WireFormat.BareWordParses | pkg/sdks/sqldb/dbarray/dbarray.go:859-871 | one bare word, nil exactly if it is NULL in capital letters |
| WireFormat.QuotedWordParses | pkg/sdks/sqldb/dbarray/dbarray.go:838-857 | one quoted word is its bytes, whichever of them a backslash precedes, and never nil |
| LinearArrays.LinearExact | pkg/sdks/sqldb/dbarray/dbarray.go:911-920 | for all inputs and all nonempty delimiters: the linear scan succeeds with these elements if and only if the input is only matching braces or, unless the delimiter is the closing brace, a list of quoted and unquoted items denoting them |
| LinearArrays.LinearCount | pkg/sdks/sqldb/dbarray/dbarray.go:457-487 | with at most one dimension, the padded first dimension is the number of elements, for every nonempty delimiter |
| LinearArrays.DimsDivide | pkg/sdks/sqldb/dbarray/dbarray.go:901-907 | every dimension of every result is at least one and divides the number of elements, for every nonempty delimiter |
| LinearArrays.BraceDelimiterNeverParses | pkg/sdks/sqldb/dbarray/dbarray.go:875-887 | with the closing brace as delimiter no array with elements parses |
| ArrayPrinter.AppendArrayQuotedBytes | pkg/sdks/sqldb/dbarray/dbarray.go:779-794 | the chunked loop appends the byte-wise escaped, quoted text |
| ArrayPrinter.EscapeChunk | pkg/sdks/sqldb/dbarray/dbarray.go:781-792 | escaping byte by byte is copying up to the first special byte, escaping it, and going on |
| ArrayPrinter.QuotingRoundTrip | pkg/sdks/sqldb/dbarray/dbarray.go:779-857 | for all byte strings and suffixes: the parser reads back exactly the bytes and stops right after the closing quote |
| ArrayPrinter.AppendArray | pkg/sdks/sqldb/dbarray/dbarray.go:715-733 | the loop over elements, each followed by the delimiter the previous one asked for, failing where a leaf does not convert |
| ArrayPrinter.AppendArrayElement | pkg/sdks/sqldb/dbarray/dbarray.go:743-777 | NULL, quoted, plain and nested elements, an empty inner slice appending nothing and asking for no delimiter |
| WireFormat.QuotingWrites | pkg/sdks/sqldb/dbarray/dbarray.go:779-794 | quoted output is the bytes between double quotes, with a backslash before quotes and backslashes and nowhere else |
| WireFormat.LeafWrites | pkg/sdks/sqldb/dbarray/dbarray.go:766-776 | the three kinds of leaves, NULL in capital letters |
| WireFormat.ItemAppends | pkg/sdks/sqldb/dbarray/dbarray.go:726-731 | one more item goes after the delimiter that the item before it asked for |
| WireFormat.ListWrites | pkg/sdks/sqldb/dbarray/dbarray.go:719-733 | a list stands between braces and asks for the delimiter of its last item; an empty one prints nothing and asks for none |
| WireFormat.FailsExactly | pkg/sdks/sqldb/dbarray/dbarray.go:762-764 | printing fails if and only if a leaf at some depth does not convert |
| NestedArrays.NestedRoundTrip | pkg/sdks/sqldb/dbarray/dbarray.go:715-909 | for all rectangular arrays of any depth: parsing the printed text gives the extents and the leaves in order, NULL apart from the text NULL, if and only if no extent is zero |
| HollowArrays.PrintedRoundTrip | pkg/sdks/sqldb/dbarray/dbarray.go:715-909 | every printable nested array, empty slices included: its text parses if and only if it is only matching braces, or no list of it ends in an empty slice and the tree that is left has its first leaf among the deepest and last sizes that divide; the leaves then come back in order |
| NestedArrays.EmptySliceVanishes | pkg/sdks/sqldb/dbarray/dbarray.go:744-752 | an empty inner slice before another item does not change the printed text |
| HollowArrays.EmptySliceAtEnd | pkg/sdks/sqldb/dbarray/dbarray.go:722-752 | an empty inner slice in last position leaves the delimiter before it and asks for none itself |
| HollowArrays.TrimAllKeeps | pkg/sdks/sqldb/dbarray/dbarray.go:722-752 | dropping every empty slice that another item follows, at every depth, changes neither the text nor the leaves |
| HollowArrays.HollowItemsFail | pkg/sdks/sqldb/dbarray/dbarray.go:828-887 | from any state of the machine inside braces, the text of items of which a list still ends in an empty slice is an error |
| HollowArrays.HollowLast | pkg/sdks/sqldb/dbarray/dbarray.go:715-909 | `[[1],[]]` is printed as `{{1},}`, which does not parse |
| HollowArrays.HollowFirst | pkg/sdks/sqldb/dbarray/dbarray.go:715-909 | `[[],[1]]` is printed as `{{1}}`, which parses as if the empty list were not there |
| NestedArrays.RectangularCount | pkg/sdks/sqldb/dbarray/dbarray.go:901-907 | a rectangular array has as many leaves as the product of its extents |
| ByteaCodec.ParseBytea | pkg/sdks/sqldb/dbarray/encode.go:167-212 | the chunk-copying decoder computes the byte-at-a-time decoder's result, with the same error on the same inputs |
| ByteaCodec.RawChunk | pkg/sdks/sqldb/dbarray/encode.go:197-207 | copying a stretch without backslashes is decoding it byte by byte |
| ByteaCodec.HexExact | pkg/sdks/sqldb/dbarray/encode.go:168-175 | hex decoding by the table of digits of both cases: one byte for every pair, the first digit counting sixteenfold, and no other text |
| ByteaCodec.CaseDoesNotMatter | pkg/sdks/sqldb/dbarray/encode.go:168-175 | digits of either case decode to the same bytes |
| ByteaCodec.EscapeExact | pkg/sdks/sqldb/dbarray/encode.go:176-211 | the escape decoder succeeds exactly on texts made of raw bytes, doubled backslashes and three octal digits up to 377 after a backslash, giving their bytes; each error occurs exactly where such a text is followed by what causes it |
| ByteaCodec.EncodeBytea | pkg/sdks/sqldb/dbarray/encode.go:214-235 | the buffer-filling hex encoder and the appending escape encoder produce the two formats |
| ByteaCodec.HexEncodeInto | pkg/sdks/sqldb/dbarray/encode.go:217-220 | hex digits go into their place of the buffer and nothing else changes |
| ByteaCodec.HexOutput | pkg/sdks/sqldb/dbarray/encode.go:214-220 | from server version 90000 on, and only then, the output begins with a backslash and the letter x; two lower-case digits follow for every byte |
| ByteaCodec.EscapeOutput | pkg/sdks/sqldb/dbarray/encode.go:221-231 | below, printable ASCII stands for itself, a backslash is doubled, and every other byte becomes a backslash and its three octal digits |
| ByteaCodec.EscapeIsNotHex | pkg/sdks/sqldb/dbarray/encode.go:168-231 | escape output never begins with the hex prefix, so the decoder takes the right branch |
| ByteaCodec.ByteaRoundTrip | pkg/sdks/sqldb/dbarray/encode.go:167-235 | decoding what was encoded gives the bytes back, for every server version and every byte value |
| Decimals.ParseIntExact | pkg/sdks/sqldb/dbarray/dbarray.go:554-619 | integer parsing accepts exactly the signed, possibly zero-padded texts of the integers in the range of the bit size |
| Decimals.ParseIntReads | pkg/sdks/sqldb/dbarray/dbarray.go:554-619 | the same said of the digits: an optional sign and decimal digits whose value by position is in range |
| Decimals.FormatIs | pkg/sdks/sqldb/dbarray/dbarray.go:575-642 | what is printed is such a text of the integer, with a sign only if it is negative and no leading zero |
| Decimals.IntRoundTrip | pkg/sdks/sqldb/dbarray/dbarray.go:575-642 | a printed integer parses to itself if it fits the bit size, both minimum values included, and is out of range otherwise |
| TypedArrays.ArrayColumn.ScanBytes | pkg/sdks/sqldb/dbarray/dbarray.go:668-685 | the scan shared by Bool, Int64, Int32 and String: success stores every decoded element, and any error leaves the column unchanged |
| TypedArrays.ArrayColumn.Scan | pkg/sdks/sqldb/dbarray/dbarray.go:654-666 | SQL NULL makes the column nil, text is scanned, other types are an error that changes nothing |
| TypedArrays.ScanTextExact | pkg/sdks/sqldb/dbarray/dbarray.go:118-143 | for all inputs: a typed scan succeeds with a list if and only if the input denotes elements that decode to it one by one |
| ColumnLanguage.BoolScans | pkg/sdks/sqldb/dbarray/dbarray.go:118-143 | exactly the lists of single letters t and f |
| ColumnLanguage.StringScans | pkg/sdks/sqldb/dbarray/dbarray.go:668-685 | exactly the lists of texts, none of them NULL |
| ColumnLanguage.Int64Scans | pkg/sdks/sqldb/dbarray/dbarray.go:544-562 | exactly the lists of decimal texts of integers between the two 64-bit bounds |
| ColumnLanguage.Int32Scans | pkg/sdks/sqldb/dbarray/dbarray.go:605-623 | the same with the 32-bit bounds |
| ColumnLanguage.ByteaScans | pkg/sdks/sqldb/dbarray/dbarray.go:192-210 | exactly the lists of hex and escape texts, with their bytes; NULL has none |
| ColumnLanguage.NullNeverScans | pkg/sdks/sqldb/dbarray/dbarray.go:676-681 | an array that holds a NULL scans into no bool, integer or string column |
| TypedArrays.ColumnRoundTrip | pkg/sdks/sqldb/dbarray/dbarray.go:118-172 | nil, empty and any other list come back as they were, told apart, for every type whose element tokens are faithful |
| ColumnTypes.BoolValue | pkg/sdks/sqldb/dbarray/dbarray.go:146-172 | the index arithmetic writes every byte of the printed row and stays in the buffer |
| ColumnTypes.BoolRoundTrip | pkg/sdks/sqldb/dbarray/dbarray.go:118-172 | scanning a printed bool column gives it back, nil and empty apart |
| ColumnTypes.ByteaValue | pkg/sdks/sqldb/dbarray/dbarray.go:214-243 | the precomputed size is exact, every write stays inside, and the buffer is the printed row |
| ColumnTypes.PutItem | pkg/sdks/sqldb/dbarray/dbarray.go:229-234 | one round of that loop appends a delimiter and a quoted hex element |
| ColumnTypes.ScanBytea | pkg/sdks/sqldb/dbarray/dbarray.go:192-210 | unquoting, then bytea decoding of every element, leaving the column unchanged on any error |
| ColumnTypes.ByteaArrayRoundTrip | pkg/sdks/sqldb/dbarray/dbarray.go:192-243 | scanning a printed bytea column gives the contents back through array quoting and hex |
| ColumnTypes.StringValue | pkg/sdks/sqldb/dbarray/dbarray.go:688-709 | the appending loop prints the row of quoted elements |
| ColumnTypes.StringRoundTrip | pkg/sdks/sqldb/dbarray/dbarray.go:668-709 | scanning a printed string column gives it back, any bytes and empty strings included |
| ColumnTypes.IntValue | pkg/sdks/sqldb/dbarray/dbarray.go:564-585 | the appending loop prints the row of decimal elements |
| ColumnTypes.IntsRoundTrip | pkg/sdks/sqldb/dbarray/dbarray.go:544-648 | for every bit size: a printed list of integers scans to itself if every element is in range, and otherwise fails at the first that is not |
| ColumnTypes.Int64RoundTrip | pkg/sdks/sqldb/dbarray/dbarray.go:544-585 | the 64-bit scan of a printed list gives it back exactly when every element is between the two 64-bit bounds |
| ColumnTypes.Int32RoundTrip | pkg/sdks/sqldb/dbarray/dbarray.go:605-648 | the same with the 32-bit bounds |
| ColumnLanguage.ElementsPrint | pkg/sdks/sqldb/dbarray/dbarray.go:146-243 | the bytes each type prints for an element |
| ColumnLanguage.ColumnPrints | pkg/sdks/sqldb/dbarray/dbarray.go:688-709 | nil is SQL NULL, an empty column two braces, any other its elements with commas between them |
| GenericArrays.Assign | pkg/sdks/sqldb/dbarray/dbarray.go:444-480 | dimensions, their check against the destination, and the assignment of every element; the first dimension counts all values |
| GenericArrays.ScanToSlice | pkg/sdks/sqldb/dbarray/dbarray.go:484-486 | the slice taken is in range and holds every element |
| GenericArrays.ScanToArray | pkg/sdks/sqldb/dbarray/dbarray.go:462-491 | a fixed-size destination is filled completely or left as it was |
| GenericArrays.ScanSlice | pkg/sdks/sqldb/dbarray/dbarray.go:411-441 | into a slice: SQL NULL makes it nil, text is scanned, other types are an error that changes nothing |
| GenericArrays.ScanArray | pkg/sdks/sqldb/dbarray/dbarray.go:411-441 | into an array: SQL NULL is an error too, and changes nothing |
| GenericArrays.ScanKeepsElements | pkg/sdks/sqldb/dbarray/dbarray.go:443-494 | exactly when a generic scan succeeds, and that it then stores one value per parsed element |
| GenericArrays.GenericValue | pkg/sdks/sqldb/dbarray/dbarray.go:497-524 | nil, empty and nested values, and the conversion error |
| GenericArrays.PrintedScans | pkg/sdks/sqldb/dbarray/dbarray.go:443-524 | every printable array, nested and with empty slices or not: scanning its text succeeds exactly when one dimension is left, every leaf can be assigned and a fixed-size destination has as many places; the leaves are then stored in order |
| GenericArrays.RectangularScans | pkg/sdks/sqldb/dbarray/dbarray.go:443-524 | a printed array of one dimension, empty or not, scans leaf by leaf into a slice and into an array of its length and no other; one of more dimensions is refused with its extents |
| Stock.WriteAccepted | services/inventory/internal/migrate/sql/migrate.sql:5-15 | exactly when the table accepts what a handler writes, for every 64-bit quantity, wrap-around included |
| Stock.WrapsAround | services/inventory/internal/service/handlers.go:52-53 | sums wrap around at 64 bits |
| Stock.OrdersAccepted | services/inventory/internal/service/handlers.go:28-183 | order handlers with quantities that are not negative never write what the table rejects |
| Stock.StockSafety | services/inventory/internal/service/handlers.go:28-253 | for every interleaving of any number of handlers: all rows keep 0 <= reserved <= onHand <= 2147483647 and all snapshots satisfy the CHECKs, and every attempted write is accepted as stated above |
| Stock.Conservation | services/inventory/internal/service/handlers.go:28-253 | for every interleaving: stock differs from the ledger of granted, released, shipped and restored quantities by exactly what stale writes overwrote |
| Stock.BalancedWhenCurrent | services/inventory/internal/service/handlers.go:28-253 | when no write is stale the stock balances and no more is released or shipped than was reserved or granted |
| Stock.OneAtATimeIsCurrent | services/inventory/internal/service/handlers.go:28-253 | handling any list of events one at a time is such a run |
| Stock.OrdersOversell | services/inventory/internal/service/handlers.go:34-56 | two orders for all available stock, both read before either writes, are both granted |
| Handlers.Store.UpdateInventory | services/inventory/internal/stores/invdb/invdb.go:88-107 | a whole-row write guarded by the CHECKs; a missing row is no error |
| Handlers.Service.UpdateInventory | services/inventory/internal/domain/domain.go:69-87 | patches the snapshot and writes the whole row |
| Handlers.Service.HandleOrderPlaced | services/inventory/internal/service/handlers.go:28-91 | rows, publications and error of the handler, for every outcome of its two publications |
| Handlers.Service.HandleOrderCancelled | services/inventory/internal/service/handlers.go:93-134 | the same for a cancellation, with the release clamped to what is reserved |
| Handlers.Service.HandleOrderShipped | services/inventory/internal/service/handlers.go:136-183 | the same for a shipped order, with both clamps |
| Handlers.Service.HandleShipmentCancelled | services/inventory/internal/service/handlers.go:214-253 | the same for a cancelled shipment, which restores stock |
| Handlers.HandleIsReadThenWrite | services/inventory/internal/service/handlers.go:28-253 | an uninterrupted handler is the read step followed by the write step of the interleaved account |
| Handlers.NoticesAreTrue | services/inventory/internal/service/handlers.go:34-88 | published numbers are those of the row just written, and a reservation never leaves negative availability |
| Handlers.OrderPlacedExactly | services/inventory/internal/service/handlers.go:28-91 | rows, publications and error in numbers: too little stock is reported with what was asked and what there is, and changes nothing; otherwise the reservation grows and is published, then the update; a row the table rejects is an error |
| Handlers.OrderCancelledExactly | services/inventory/internal/service/handlers.go:93-134 | the reservation shrinks by the quantity or to nothing, and one update gives the release as its reason; without a reservation nothing is written or published |
| Handlers.OrderShippedExactly | services/inventory/internal/service/handlers.go:136-183 | stock and reservation shrink by the quantity or by all that is reserved, and one update says so; without a reservation nothing is written or published |
| Handlers.ShipmentCancelledExactly | services/inventory/internal/service/handlers.go:214-253 | the stock grows by the quantity and one update says so; a quantity of zero or less does nothing, one that overflows the column is an error |
| Handlers.MissingRow | services/inventory/internal/service/handlers.go:29-32 | without a row every handler returns an error and publishes nothing |
| Handlers.ChangedThoughFailed | services/inventory/internal/service/handlers.go:28-253 | for all four events and every quantity: an error leaves the stock changed if and only if the write changes the row and a publication is refused |
| Handlers.RetriesAct | services/inventory/internal/service/handlers.go:28-253 | for all four events and every quantity, negative ones included: what any number of handlings with refused publications comes to, clamped by stock, reservation or column range |
| Handlers.RetriesReserveAgain | services/inventory/internal/service/handlers.go:52-75 | a reservation of any quantity whose publication keeps failing is made again on every retry while the table accepts the outcome |
| Delivery.WithIdempotency | services/inventory/internal/messaging/idempotency.go:17-36 | which calls run the handler, what they return and which mark they leave, store failures included |
| Delivery.OnMessage | services/inventory/internal/messaging/subscriber.go:83-123 | the callback's settlement, marks and handler start for every outcome, from undecodable to panicking |
| Delivery.SettlesOnce | services/inventory/internal/messaging/subscriber.go:85-122 | a completed delivery makes exactly one of ack, nak and term; term follows a dead-letter attempt; no nak once five deliveries are known |
| Delivery.CallbackIsRun | services/inventory/internal/messaging/subscriber.go:83-123 | the steps of one uninterrupted delivery do what the callback does |
| Delivery.SuccessIsAcked | services/inventory/internal/messaging/idempotency.go:28-35 | a handler that succeeds ends with its message acked and, if it has an id, the id marked |
| Delivery.KnownIsAcked | services/inventory/internal/messaging/idempotency.go:25-28 | a message whose id is seen is acked without a start of the handler |
| Delivery.FailureIsGivenBack | services/inventory/internal/messaging/subscriber.go:111-120 | a failing handler, or a mark that cannot be set, ends with a nak below five known deliveries, and with a dead letter and a term from the fifth on |
| Delivery.PanicIsTerminated | services/inventory/internal/messaging/subscriber.go:85-90 | a panic ends with a dead letter and a term at every delivery count, and marks nothing |
| Delivery.UndecodableIsTerminated | services/inventory/internal/messaging/subscriber.go:102-106 | a message that does not decode ends so too, and starts nothing |
| Delivery.AckedIsMarked | services/inventory/internal/messaging/idempotency.go:28-35 | in every run, failures, crashes and expiries included, a message with an id is acked only after its id was marked |
| Delivery.AckedHasMark | services/inventory/internal/messaging/idempotency.go:28-35 | in every run in which the mark of an id does not expire, every acked message with that id has it marked |
| Delivery.AckClosesGate | services/inventory/internal/messaging/idempotency.go:25-36 | once a message with an id is acked, no further run with an answering store and no expiry starts the handler for that id |
| Delivery.MarkClosesGate | services/inventory/internal/messaging/idempotency.go:33-36 | in every run with a working store and no expiry, no check after the mark starts the handler |
| Delivery.StartsBounded | services/inventory/internal/messaging/subscriber.go:83-123 | in every run, overlaps, crashes, unreadable counts and lost settlements included: at most one start and one nak per delivery, as many terms as dead-letter attempts |
| Delivery.NaksBounded | services/inventory/internal/messaging/subscriber.go:111-120 | in every run that sees the delivery count: at most four naks |
| Delivery.EveryDeliveryCounts | services/inventory/internal/messaging/subscriber.go:83-123 | in every run: the deliveries of a message are its naks, its acks and terms that arrived, those that did not, its crashes and those in flight, each counted once |
| Delivery.DeliveriesBounded | services/inventory/internal/messaging/subscriber.go:111-120 | in every run that sees the delivery count: a message that is still open was delivered at most four times besides those in flight, crashed or lost |
| Delivery.FiveDeliveries | services/inventory/internal/messaging/subscriber.go:111-120 | without crashes, overlaps, missing counts and lost acks or terms a message is delivered, and its handler started, at most five times |
| Delivery.RedeliveryUnbounded | services/inventory/internal/messaging/subscriber.go:88-120 | without the delivery count a failing message is nakked, and when its terms are lost it is delivered and handled, any number of times |
| Redelivery.WritesBounded | services/inventory/internal/messaging/subscriber.go:83-123 | in every run of deliveries and interleaved handlers: a message's accepted writes are at most its starts, these at most its deliveries, and what the writes come to is at most one quantity each |
| Redelivery.LedgerIsSum | services/inventory/internal/service/handlers.go:28-253 | in every run the ledger of a key is the sum of what its messages came to |
| Redelivery.StockIsRun | services/inventory/internal/service/handlers.go:28-253 | what a run under the broker does to the stock is a run of the interleaved handlers, so what holds of all those holds here |
| Redelivery.FiveWrites | services/inventory/internal/service/handlers.go:52-88 | without crashes, overlaps, missing counts and lost acks or terms a message causes at most five writes, each of an order reserving its quantity |
| Redelivery.RowsChange | services/inventory/internal/service/handlers.go:28-253 | in runs without crashes, overlaps, missing counts and lost acks or terms: any row changes by what its messages granted, released, shipped and restored and by what stale writes overwrote, and at most five times the ordered quantity is granted |
| Redelivery.ReservedGrowth | services/inventory/internal/service/handlers.go:52-60 | the row of an order that no other message touches grows by exactly one quantity per write, and by at most five |
| Redelivery.RoundsAreRetries | services/inventory/internal/messaging/subscriber.go:111-120 | deliveries whose first publication is refused do to the rows what that many retries of the handler do |
| Redelivery.FiveReservations | services/inventory/internal/messaging/subscriber.go:111-120 | the bound is reached: five such deliveries reserve five times the quantity and end with a term |
| WholeDeliveries.DeliveryIsHandling | services/inventory/internal/messaging/subscriber.go:83-123 | one uninterrupted delivery, whatever the publications, the mark and the settlement come to: the rows change as by handling the message, and the message fares as after a callback with that outcome |
| WholeDeliveries.HandledIsAcked | services/inventory/internal/messaging/idempotency.go:28-35 | handled without an error: acked and marked |
| WholeDeliveries.FailedIsGivenBack | services/inventory/internal/messaging/subscriber.go:111-120 | handled with an error: nakked below five known deliveries, terminated from then on, not marked, the rows changed as handling says all the same |
| WholeDeliveries.KnownIsNotHandled | services/inventory/internal/messaging/idempotency.go:25-28 | known: acked, and the rows left alone |
| Claim.WithTryClaim | services/shipment/internal/messaging/idempotency.go:16-35 | the claim decides who runs; a failing claim is an error, a lost one a success without running |
| Claim.AtMostOnce | services/shipment/internal/messaging/idempotencystore/idempotencystore.go:27-31 | in every interleaving of calls, failures and crashes the handler starts at most once per nonempty id, and once more per expiry of its key |
| Claim.HandledExactly | services/shipment/internal/messaging/idempotency.go:24-32 | in every run without expiry: the handler starts, and completes, exactly when the call that first stored the key was told so, and returned success; every other call past its claim succeeds exactly when its own claim call worked |
| Claim.SuccessWithoutHandling | services/shipment/internal/messaging/idempotency.go:24-32 | exactly when a call reports success for an id whose handler has not completed |
| Claim.FailureThenSuccess | services/shipment/internal/messaging/idempotency.go:24-32 | the run in which a handler fails and the next call reports success |
| Claim.LostClaim | services/shipment/internal/messaging/idempotency.go:24-30 | the run in which a stored claim is answered with an error, nothing is handled and the next call reports success |
| Claim.HeldKeyStartsNothing | services/shipment/internal/messaging/idempotency.go:28-30 | while a key is held and no handler runs for it, nothing starts for its id |
| Claim.NoIdAlwaysRuns | services/shipment/internal/messaging/idempotency.go:19-22 | in every run there are as many starts for no id as calls without one that get past their claim, and none stores a key |

## Left out

- ArrayParser.ParseArray: the empty delimiter is excluded, because with it the source's loop does not end on some inputs; `EmptyDelimiterDiverges` says on which, on a one-step account of the same machine for every delimiter (`MachineParses`).
- ArrayLanguage.ShowParses: delimiters that begin with an opening brace are excluded, because the statement is false of them (`TwoReadings`); `ParseExact` covers them.
- ViablePrefixes.ErrorIsEarned: longer delimiters are excluded, because with one the statement can fail (`UnfinishedDelimiter`), and so is the closing brace, with which no array with elements can be completed (`BraceDelimiterNeverParses`).
- HollowArrays.PrintedRoundTrip: delimiters that begin with an opening brace or contain a closing one, leaves that ask for different delimiters, and values printed without quotes whose text could be taken for syntax or NULL, are excluded.
- ColumnTypes.ByteaArrayRoundTrip: states contents; whether an element without bytes is a nil or an empty slice is not distinguished, and a NULL element scans as no bytes, as in the source.
- Delivery.WithIdempotency: the shipment service's middleware of the same name has the same body and is not modelled a second time.
- Stock.StockSafety: rows are neither created nor deleted by the steps, and the store is the database row without the cache in front of it.
- Float32, Float64 and timestamps: they rest on floating-point formatting and the calendar library; a generic array takes their texts as plain scalars.
- Reflection and the choice of types in Generic and Array: replaced by a datatype of nested values and by decoding functions as parameters.
- Scan of a string or of bytes: one case, since both convert to the same bytes.
- handleShipmentCreated and handleShipmentDelivered: they only read and publish.
- The lifecycle of an order across placed, cancelled and shipped messages through one shared idempotency key.
- Clocks, contexts and timeouts, tracing, logging and metrics, protobuf encoding, the NATS, Redis and PostgreSQL clients: their outcomes, lost acknowledgements included, are parameters or steps, and a database call that fails for another reason than a missing row or a CHECK is a crash of its handler in `Stock` and an abort in `Redelivery`.
