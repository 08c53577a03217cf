# Active Storage in Go: a verified model

Dafny models and proofs for the Go port of Rails' Active Storage: the two
serializers over one value tree, the signed tokens built on them, storage keys,
the disk service, blob rows and their objects, and attachments, alone and under
concurrency. Check everything with `dafny verify dfyconfig.toml`.

Bytes are integers in 0..255 and a Go string is a sequence of bytes, decoded to
runes where the code ranges over runes. MD5, SHA-1, SHA-256 and HMAC are
arbitrary functions, so no theorem depends on their strength; where one is
needed, the theorem exhibits the collision. The clock is a field of the
verifier. A random source plays back a finite stream and then fails. Where the
source mutates (marshaler, buffer, random source, disk, store, blobs,
attachments) the model is a class, and each of its methods is proved equal to a
specification function; the theorems are about those functions.

| files | what they hold |
|---|---|
| `Common`, `Values`, `Utf8`, `Decimal`, `Base64`, `Clock` | bytes, the value tree, text and number formats with their round trips |
| `Marshal`, `MarshalReader`, `MarshalTheorems` | the Marshal writer, an independent reader, the exact round trip |
| `JsonPrinter`, `JsonReader`, `JsonTheorems`, `JsonShortest` | the JSON printer, a parser after RFC 8259, the kernel of printing, and that the printed text is the shortest |
| `Signer`, `BareTokens`, `SignerTheorems`, `Authenticity`, `SignedIds` | both token formats, every outcome for generated tokens, exactly which tokens are accepted, signed ids over runs |
| `Random` | base36 keys and their exact uniformity |
| `Disk`, `Lifecycle`, `Variant`, `VariantRuns` | paths, objects, blob rows and variants over whole runs, variation digests and keys |
| `Slots`, `Store`, `Models`, `Attachments`, `Purging` | the tables, the store and configuration classes, has-one and has-many |
| `Concurrency`, `Races` | any number of interleaved attach calls, and exactly when they leave one row |

Where the code falls short of what one would like, the theorem says exactly when:

* A number of five bytes is dumped under a header that Ruby does not read as a
  length, so the dump does not load back in Ruby, but it is still told apart
  from every other (`LoadDump`, `DumpInjective`). From six bytes on, that is
  outside [-2^40, 2^40), the header is the whole encoding of a small number, and
  different values can have the same dump (`WideHeaders`, `DumpCollision`).
* A plain token whose purpose contains `.` never verifies, not even for that
  purpose (`HmacAcceptance`).
* An empty purpose on the verifying side checks nothing but the signature: it
  accepts every generated token, of any purpose and past any expiry, and returns
  the whole payload. Under every other purpose a token past its expiry, or with
  an expiry outside the years 0 to 9999, is refused (`GeneratedTokens`,
  `ExpiryUnchecked`).
* An empty purpose without expiry on the generating side leaves the token bare,
  so a Hash that spells out an envelope passes for the purpose it names
  (`BareTokenPassesFor`). Exactly such Hashes do, under any case of the names
  (`BareAccepted`); tokens with a purpose or an expiry are kept apart, but
  for a purpose that is not UTF-8, whose tokens pass for its scrubbed form
  (`PurposeSeparation`).
* A caller-chosen key can lead out of the service's root: exactly if its
  segments, those of its shard folder included, climb out of where they start
  (`StaysBelow`, `PathClimbs`).
* A blob under the caller-chosen key `variants` would need its object to be the
  directory that holds every variant: whichever of the two comes second fails
  (`VariantBlocksBlob`, `BlobBlocksVariants`).
* Concurrent `One.Attach` calls can leave several rows in a slot, and calls can
  end in `ErrAttachmentNotFound` with their row kept (`TwoRowsLeft`,
  `OneLosesRace`). From at most one row at most one is left exactly if no two
  calls found the same row, or both none, when they looked (`OneRowLeft`); calls
  that do not overlap are safe (`SerialKeepsOne`).
* Purging two attachments of one blob stops at the second with
  `ErrBlobNotFound` (`PurgeSharedSlot`).

## Model

| member | source | states |
|---|---|---|
| Values.Get | value.go:25-32 | The value of the first entry with that key, and none exactly if no entry has it. |
| Marshal.Marshaler.Long | marshal.go:102-128 | Appends the packing of the integer, for negative numbers too; both shift loops end. |
| Marshal.Marshaler.Symbol | marshal.go:75-87 | Appends the symbol or its link, and keeps the symbol map the inverse of the list of symbols written. |
| Marshal.Marshaler.Str | marshal.go:89-100 | Appends the string with its shared `E` symbol and keeps the map in step. |
| Marshal.Marshaler.Encode | marshal.go:32-73 | Appends the dump of the value, or fails exactly for values outside the contract. |
| Marshal.RubyMarshal | marshal.go:22-30 | The whole stream with its version bytes, or an error. |
| MarshalReader.LongRoundTrip | marshal.go:102-128 | For a reader of four-byte numbers, as Ruby's, or of five: a packed integer followed by anything is read back with exactly the rest left over if and only if it lies in [-2^32, 2^32), or [-2^40, 2^40). |
| MarshalReader.PackedClasses | marshal.go:102-128 | The first byte of a packed integer tells its class: zero, one byte, or one to four bytes of either sign. |
| MarshalReader.PackedShortest | marshal.go:102-128 | No text that reads as the integer is shorter than its packing, and no other is as short, but for two other one-byte texts that Ruby reads as zero. |
| MarshalReader.WideHeaders | marshal.go:109-126 | The packing of a number of six, seven or eight bytes, of either sign, starts with the whole packing of a small one. |
| MarshalTheorems.SymbolRoundTrip | marshal.go:75-87 | Writer's and reader's symbol tables stay equal over a symbol or a link. |
| MarshalTheorems.ValueRoundTrip | marshal.go:32-73 | Any value at any state of the symbol table, followed by anything, is read back with the same table and the same rest exactly when its numbers fit the reader's width. |
| MarshalTheorems.LoadDump | marshal.go:22-128 | A dump loads back to its value if and only if every number written fits the reader's width: four bytes for Ruby's. |
| MarshalTheorems.LoadDumpUpTo4GiB | marshal.go:22-128 | For dumps up to 4 GiB that condition is about the integers in the value alone. |
| MarshalTheorems.DumpInjective | marshal.go:22-128 | Values without six-byte numbers have equal dumps only if they are equal, so order, keys and Symbol against String all show, even where Ruby could not read them back. |
| MarshalTheorems.DumpInjectiveUpTo4GiB | marshal.go:22-128 | For dumps up to 4 GiB the condition is that the integers in the values lie in [-2^40, 2^40). |
| MarshalTheorems.DumpCollision | marshal.go:102-128 | For integers of six, seven and eight bytes and of either sign, two different arrays that have the same dump. |
| JsonPrinter.RjString | rjson.go:72-102 | Appends the quoted, escaped text, rune by rune. |
| JsonPrinter.RjEncode | rjson.go:23-70 | Appends the printed value, or fails exactly for values outside the contract. |
| JsonPrinter.RubyJson | rjson.go:15-21 | The printed value or an error. |
| JsonTheorems.ValueParses | rjson.go:23-102 | A printed value followed by any text that cannot continue it parses to its meaning, with exactly that text left over. |
| JsonTheorems.ParsePrint | rjson.go:15-102 | A parser after RFC 8259 reads a printed value as its meaning: order and duplicate keys kept, Symbols as strings. |
| JsonTheorems.RecoverParse | rjson.go:15-102 | From the parsed text the value is recovered up to erasing Symbols to Strings and malformed UTF-8 to U+FFFD. |
| JsonTheorems.PrintErase | value.go:3-7 | Erasing changes nothing in the printed text. |
| JsonTheorems.JsonKernel | rjson.go:15-102 | Two values print alike if and only if their erasures are equal. |
| JsonShortest.EscapeText | rjson.go:77-101 | Every character from the space on but the quotation mark and the backslash stands as its own UTF-8, and the digits of a six-byte escape are lower case. |
| JsonShortest.EscapeShortest | rjson.go:77-101 | No spelling of a character is shorter, and none is as short but the same escape with capital digits. |
| JsonShortest.CharsShortest | rjson.go:72-102 | The contents of a printed string are the shortest text for its characters, and the only one as short if it needs no six-byte escape. |
| JsonShortest.PrintShortest | rjson.go:15-102 | Of all texts that parse to what a value stands for the printed one is the shortest. |
| Utf8.ScrubChangesInvalid | rjson.go:77-101 | Ranging over runes and writing them back changes a string exactly when it is not valid UTF-8. |
| Utf8.EncodedBits | rjson.go:99-101 | A rune is written with the bytes and bits of the UTF-8 table in section 3 of RFC 3629. |
| Utf8.DecodedExactly | rjson.go:77-78 | One round takes a whole encoding where the text starts with one, and otherwise one byte, as U+FFFD. |
| Decimal.ParseIntOfItoa | blob.go:281-284 | Every int64 survives printing and parsing. |
| Decimal.ParseSigned | blob.go:281-284 | Digits with or without a sign are read as the number they spell if it is an int64. |
| Decimal.ParsedIsSigned | blob.go:281-284 | Nothing else is read as a number. |
| Decimal.DigitsAre | blob.go:402-402 | Decimal notation, digit by digit, without leading zeros. |
| Base64.DecodeEncode | signer.go:127-139 | Both alphabets, padded or not, decode what they encode, for all bytes. |
| Base64.Alphabets | signer.go:127-139 | The letters are those of sections 4 and 5 of RFC 4648, in order. |
| Base64.QuadValue | signer.go:127-132 | Three bytes are written as the four letters of the same big-endian number. |
| Base64.TailValue | signer.go:127-132 | One or two bytes at the end are filled up with zero bits, and padded to four characters if asked. |
| Base64.HexDigits | signer.go:121-125 | Two lower-case hexadecimal digits for each byte, the high one first. |
| Base64.DecodeBroken | signer.go:134-139 | Line breaks anywhere in a Base64 text make no difference to what it decodes to. |
| Clock.ParseFormat | signer.go:152-153 | A written expiry parses back to itself cut to the millisecond if and only if its year has four digits; otherwise not at all. |
| Clock.ParseVariants | signer.go:206-209 | An hour without its leading zero, a comma for the point, or a sign in the fraction is read as the same instant. |
| Clock.ParsedRange | signer.go:206-209 | What is read as an expiry has a month, a day of that month and a time of day in range. |
| Clock.FormatText | signer.go:152-153 | The text of an expiry, column by column. |
| Clock.BeforeIsLexicographic | signer.go:210-212 | Earlier means smaller in the first field that differs, counting from the year. |
| Clock.BeforeIsTotal | signer.go:210-212 | Of two different instants exactly one is before the other. |
| Clock.Calendar | signer.go:206-209 | Leap years are divisible by an odd number of 4, 100 and 400, and months alternate, starting again in August. |
| Signer.LastDashes | signer.go:177-180 | The position of the last `--`, or none. |
| Signer.EnvelopeNames | signer.go:145-157 | The names and literal pieces of the envelope. |
| Signer.FoldRuneIs | signer.go:192-199 | Exactly the other case of a letter, the long s and the Kelvin sign fold into a field's name. |
| Signer.EnvelopeText | signer.go:141-159 | The printed value of the metadata envelope is the text written piece by piece. |
| Signer.WrapMetadata | signer.go:145-159 | Writes, piece by piece, exactly the JSON of the envelope. |
| SignerTheorems.SplitToken | signer.go:48-58 | A token splits at its dots into purpose, data and MAC, or into too many parts if the purpose has dots. |
| SignerTheorems.HmacAcceptance | signer.go:47-71 | A token verifies, and returns its data, exactly under its own purpose and only if that has no dot. |
| SignerTheorems.PayloadInjective | signer.go:48-51 | The authenticated text determines purpose and data. |
| SignerTheorems.OpenWritten | signer.go:192-201 | Unmarshalling a written envelope gives the message, expiry and purpose that were put in. |
| SignerTheorems.VerifiedToken | signer.go:171-191 | With either alphabet the last separator is the true one, so the payload reaches the envelope stage unchanged. |
| BareTokens.LastIs | signer.go:192-201 | Among entries whose name selects a field under any case, the last one decides. |
| BareTokens.NestingDenoted | signer.go:199-201 | A printed value nests as deep as the value, which decides whether it can be unmarshalled. |
| BareTokens.BarePayload | signer.go:189-219 | Reading a printed value as an envelope, told from the value's own entries: exactly Hashes of the envelope's shape, not nested too deep, get past unmarshalling. |
| SignerTheorems.GeneratedTokens | signer.go:161-219 | The outcome of verifying a generated token, for all values, purposes, expiries and clocks: with an envelope it depends on purposes, expiry and clock alone, and on a bare value's entries otherwise. |
| SignerTheorems.BareAccepted | signer.go:168-219 | A bare token passes for a purpose exactly if its value is a Hash with an envelope for that purpose, whose expiry time.Parse accepts and puts in the future and whose message decodes, and yields that message. |
| SignerTheorems.BareExpired | signer.go:205-213 | A bare token is refused as expired exactly if its value has an envelope for the purpose whose expiry has passed, whatever its message. |
| SignerTheorems.BareSeparation | signer.go:192-204 | Without an entry whose name folds to `_rails` a bare token is refused under every purpose. |
| SignerTheorems.BareTokenPassesFor | signer.go:145-173 | A bare token over a Hash that spells out an envelope is the token generated for that envelope's purpose and expiry. |
| SignerTheorems.ExpiryUnchecked | signer.go:189-213 | A token past its expiry, or with an unreadable one, is accepted exactly under the empty purpose, with the whole envelope. |
| SignerTheorems.TokenRoundTrip | signer.go:161-219 | Under its own purpose a token returns the serialized value until its expiry to the millisecond, then ErrExpired. |
| SignerTheorems.PurposeSeparation | signer.go:168-204 | A token with a purpose or an expiry is refused for any other non-empty purpose, whatever the value holds; only a purpose that is not UTF-8 has one other, its scrubbed form, that its tokens can pass for. |
| SignerTheorems.BareToken | signer.go:168-191 | Without purpose and expiry the bare serialized value comes back. |
| SignerTheorems.SignVerify | signer.go:221-238 | A signed string comes back unchanged exactly if it is UTF-8. |
| SignerTheorems.VerifyValue | signer.go:227-238 | A token of any value read as a string: texts come back scrubbed, nil as the empty string, and nothing else is accepted. |
| Authenticity.VerifiedExactly | signer.go:175-219 | For all tokens and purposes: accepted are exactly the texts followed by the hexadecimal HMAC of that very text whose payload is accepted. |
| Authenticity.Forged | signer.go:181-184 | Every other token is ErrInvalidSignature under every purpose. |
| Authenticity.SignatureBinds | signer.go:181-184 | One signature accepted on two texts is a collision of the HMAC. |
| Authenticity.TokenText | signer.go:121-173 | The text of a generated token: URL-safe Base64 without padding or standard with it, then the HMAC of that text. |
| Authenticity.VerifyExactly | signer.go:53-71 | For all tokens and purposes: accepted are exactly purpose, data and the Base64 HMAC of these two, with dots in between and nowhere else. |
| Authenticity.Unsealed | signer.go:53-71 | Every token that is not of this form, for any purpose, is ErrInvalidSignature. |
| Authenticity.MacBinds | signer.go:61-66 | One MAC accepted on two texts is a collision of the HMAC. |
| Random.GenerateBase36 | random.go:48-65 | Returns the n base36 characters that the byte and redraw streams determine and leaves the rest of both; fails exactly if one runs dry, and says what is left then. |
| Random.GenerateKey | random.go:67-71 | A 28-character base36 key or the source's failure, and what is left of the source. |
| Random.Base36Alphabet | random.go:12-14 | The alphabet: digits, then lower-case letters. |
| Random.CharacterAt | random.go:53-63 | Each character is picked by its own byte modulo 64, or, from 36 on, by the next number drawn, in order. |
| Random.LeftOver | random.go:53-63 | It fails exactly if there are fewer numbers than bytes to draw again, and uses no more than these. |
| Random.FirstCharacter | random.go:53-63 | Each first character is reached by 4 direct bytes, and by 112 bytes with one redraw. |
| Random.Uniform | random.go:44-65 | Every base36 key of every length n comes from exactly 256^n * 36^(m-n) choices of bytes and of m >= n redraws. |
| Disk.BlobPath | disk_service.go:99-107 | A base36 key's object lies in its two shard directories. |
| Disk.VariantPath | variant.go:118-128 | Every variant lies below va/ri/variants. |
| Disk.PathClimbs | disk_service.go:99-107 | The path of any key: as many levels above the root as its segments climb, and the names they end in. |
| Disk.StaysBelow | disk_service.go:99-107 | A key stays below every root if and only if its segments nowhere climb out of where they start. |
| Disk.ObjectsApart | disk_service.go:99-107 | Different objects have different paths, and none lies on the way to another. |
| Disk.VariantsKeyCollides | variant.go:118-128 | The one base36 key that clashes with the variants' directory. |
| Disk.TidyPlace | disk_service.go:109-139 | On a disk of such objects every object's place is a file or free, never a directory. |
| Disk.UploadObject | disk_service.go:109-139 | An upload with a matching or no checksum succeeds and changes what that object reads, and no other. |
| Disk.UploadMismatch | disk_service.go:131-136 | With any other checksum it fails with ErrIntegrity and takes the earlier object away, and no other. |
| Disk.ChecksumSeparates | blob.go:150-155 | Equal checksums are equal MD5 values. |
| Disk.RemoveObject | disk_service.go:161-169 | Deleting never fails, is idempotent, and leaves all other objects. |
| Disk.RemoveOutcome | disk_service.go:161-169 | For every key and disk: what is deleted is gone, an empty directory too, and a failure changes nothing. |
| Disk.ChunksTile | disk_service.go:146-159 | The chunks at 0, c, 2c and so on make up the whole object, for every chunk size. |
| Disk.ChunkIs | disk_service.go:146-159 | A chunk is the bytes from the offset on, as many as asked for unless the data end before. |
| Disk.DiskService.Put | disk_service.go:112-139 | The disk afterwards and the error, for every key and checksum. |
| Disk.DiskService.Delete | disk_service.go:161-169 | The disk afterwards and the error; a missing object is none. |
| Disk.DiskService.Download | disk_service.go:141-144 | The stored bytes, or why not. |
| Disk.DiskService.DownloadChunk | disk_service.go:146-159 | The stored bytes clamped to the range; a negative offset is an error. |
| Disk.DiskService.Exist | disk_service.go:171-181 | True exactly for a file or directory at the path, false exactly where reading finds nothing. |
| Lifecycle.CreateOutcome | blob.go:157-175 | For every key, service and disk: the row is stored even when the upload fails, when exactly it fails, and that a success reads back. |
| Lifecycle.ReuploadOutcome | blob.go:301-311 | For every key, service and disk: the row follows the bytes whatever becomes of the upload, and when exactly that fails. |
| Lifecycle.OpenOutcome | blob.go:336-347 | Opening is ErrIntegrity exactly if the bytes are there with another checksum, and yields them exactly if they have the row's. |
| Lifecycle.DirectUploadOpens | blob.go:194-206 | In any reachable state, a blob made for a direct upload opens exactly if the bytes put under its key are the ones announced; other bytes make it ErrIntegrity. |
| Lifecycle.ProcessOutcome | variant.go:154-179 | For every key, service and disk: what fails first decides, and then nothing is stored. |
| Lifecycle.PurgeOutcome | blob.go:405-417 | The row goes only after the object; a failure keeps both, unless the row was gone already. |
| Lifecycle.VariantBlocksBlob | blob.go:157-175 | Once a variant is stored, creating a blob under the key `variants` fails and leaves its row. |
| Lifecycle.BlobBlocksVariants | variant.go:154-179 | Once a blob is stored under the key `variants`, storing any variant fails and changes nothing. |
| Lifecycle.UploadBlobObject | blob.go:293-299 | Uploading a blob's bytes with their own checksum succeeds and changes only that blob's object. |
| Lifecycle.PurgeBlobObject | blob.go:405-417 | Purging removes that object and that row only, and fails only for a row already gone. |
| Lifecycle.ProcessVariantObject | variant.go:154-179 | Processing stores the transformed bytes under the variant's key and disturbs no blob's object. |
| Lifecycle.StepDisks | blob.go:157-206 | What each operation does to rows and objects, and how it ends. |
| Lifecycle.RunKeeps | blob.go:157-206 | The invariant of every run: rows as created and not purged, tidy disks, every object as last uploaded. |
| Lifecycle.OpenChecks | blob.go:336-347 | After any run every live row opens, checksum passed, with exactly the bytes last uploaded for it, and its size is theirs; a row never uploaded has no object. |
| Lifecycle.StepOutcomes | blob.go:405-417 | In every reachable state uploads succeed, purges fail only for purged blobs, processing only for want of bytes. |
| VariantRuns.StepVariants | variant.go:154-179 | Of all blob operations only processing changes what a variant reads, and only the variant it processes. |
| VariantRuns.VariantsStay | variant.go:154-179 | After any run a variant reads what processing last made of its blob's bytes, even if the blob has changed or gone since. |
| SignedIds.ResolveSigned | blob.go:262-286 | With either signer a signed id resolves to its id, whenever it is verified. |
| SignedIds.BlobIdName | blob.go:28-28 | The purpose of signed ids. |
| SignedIds.SignedIdPurpose | blob.go:394-403 | With either signer a signed id carries the decimal id, for its own purpose and no other. |
| SignedIds.FoundIsSigned | blob.go:262-286 | What finds a blob is a token under the signer's own MAC whose payload reads as that blob's id. |
| SignedIds.NotFoundBecause | blob.go:262-286 | The error is that of the first step that fails: signature, number, row. |
| SignedIds.RowsStay | store.go:52-59 | Over any run births only grow and a purged id never comes back. |
| SignedIds.SignedIdStaysTrue | blob.go:394-403 | In every later state a token finds the row of the same blob, or ErrBlobNotFound. |
| SignedIds.PurgedStaysPurged | blob.go:262-286 | Once the blob is purged the token finds nothing for ever. |
| Variant.DigestSeparates | variant.go:70-81 | Equal digests of different transformations without six-byte numbers exhibit two different byte strings with the same SHA-1. |
| Variant.DigestDecodes | variant.go:70-81 | A digest is the padded Base64 of the SHA-1 of exactly the dump, and fails exactly for values outside the contract. |
| Variant.VariationNames | variant.go:16-16 | The purpose of variation keys and the directory of variants. |
| Variant.KeyVerifies | variant.go:83-91 | A variation key returns the printed transformations under its purpose and is refused under any other. |
| Variant.KeyKernel | variant.go:83-91 | Two variations share a key if and only if their transformations have the same erasure. |
| Variant.VariantKeyObject | variant.go:118-128 | The key of a variant of a good blob key is a proper variant object. |
| Variant.VariantKeySeparates | variant.go:118-128 | Equal variant keys mean equal blob keys and equal SHA-256 values. |
| Slots.IdsUpToAre | store.go:106-123 | The listed ids are exactly the matching rows, in strictly increasing order. |
| Slots.FindInsert | store.go:96-104 | An insert extends its own slot at the end and no other. |
| Slots.FindDelete | store.go:125-135 | A delete takes one position out of its own slot and leaves the others. |
| Slots.StoreRefinesLog | store.go:96-135 | After any run the store answers as the live entries of its insertion log, in order. |
| Slots.AttachOneSlot | attachment.go:144-165 | The slot loses its last row and gains the new one, which is then read back; no other slot changes. |
| Slots.RunOneKeepsOne | attachment.go:144-178 | Every run of attaching and detaching keeps at most one row: the last blob attached, unless taken away since. |
| Purging.PurgeLatest | attachment.go:57-68 | Purging the latest attachment takes its row away as detaching does, unless it has no cached blob and the stored one is gone. |
| Slots.AttachManySlot | attachment.go:236-252 | The slot grows at its end by one row for each blob, in order, and no row is lost. |
| Slots.DeleteFirst | attachment.go:254-266 | Deleting the first rows of a slot leaves it the others, in order, and touches no other slot. |
| Store.MemStore.InsertBlob | store.go:52-60 | The next id, and the table with the new row, even for a blob stored already. |
| Store.MemStore.FindBlob | store.go:62-71 | The stored pointer under the id, or ErrBlobNotFound. |
| Store.MemStore.UpdateBlob | store.go:73-83 | Replaces the row under the id, or ErrBlobNotFound and no change. |
| Store.MemStore.DeleteBlob | store.go:85-94 | Removes exactly that row, or ErrBlobNotFound and no change. |
| Store.MemStore.InsertAttachment | store.go:96-104 | The next id, and the table with the new row, even for an attachment stored already. |
| Store.MemStore.FindAttachments | store.go:106-123 | The stored pointers of the slot, whose ids are the specified list. |
| Store.MemStore.DeleteAttachment | store.go:125-135 | Removes exactly that row, or ErrAttachmentNotFound and no change. |
| Models.Config.constructor | blob.go:29-41 | A Config over an empty store and empty services is where every run starts. |
| Models.Config.DefaultService | service.go:123-129 | The service under the default name, and none if that name is empty. |
| Models.Config.SettledIs | blob.go:97-113 | The caller's key and service are kept; otherwise the key is the next 28 characters drawn and the service the default one; the first step that fails decides. |
| Models.DrawnKeyGood | random.go:67-71 | A drawn key meets every condition of the run theorems but newness. |
| Models.Config.BuildBlob | blob.go:93-132 | A fresh blob with the caller's key and service, or else a drawn key and the default service; which step fails, and what is left of the random source. |
| Models.Config.UploadBytes | blob.go:293-299 | Rows and disks afterwards and the error. |
| Models.Config.CreateAndUpload | blob.go:157-175 | Row first, then object: rows, disks and random source afterwards, the error, and that no other blob is touched. |
| Models.Config.CreateBeforeDirectUpload | blob.go:194-206 | The new row and nothing on any disk. |
| Models.Config.Reupload | blob.go:301-311 | Size and checksum follow the bytes, in the stored row too if the blob is stored, before the service is asked. |
| Models.Config.Download | blob.go:313-325 | The object's bytes through the registry, or why not. |
| Models.Config.Open | blob.go:336-347 | The bytes exactly if they are there with the row's checksum, ErrIntegrity exactly if they are there with another. |
| Models.Config.Purge | blob.go:405-417 | Object first, then row: rows and disks afterwards and the error. |
| Models.Config.SignedID | blob.go:394-403 | Signing never fails, and the token resolves to this blob's id whenever it is verified. |
| Models.Config.FindSignedBlob | blob.go:262-286 | The stored blob the token resolves to, or the error at the step that fails. |
| Models.Config.Process | variant.go:154-179 | Rows and disks afterwards and the error, in the order of the checks. |
| Attachments.BlobFor | attachment.go:70-83 | Which blob each kind of attachable becomes, its effect on rows, disks and random source, and its error, kind by kind. |
| Attachments.Bind | attachment.go:85-96 | A fresh attachment with its blob cached, stored as the next row. |
| Attachments.BlobOf | attachment.go:44-55 | A cached pointer is returned whatever the store holds; otherwise the store is asked and the answer cached. |
| Attachments.PurgeAttachment | attachment.go:57-68 | Tables, disks and error, in the order blob, join row, object, blob row. |
| Purging.PurgeOneOutcome | attachment.go:57-68 | All outcomes: without its blob or its row an attachment's purge changes nothing and says which is missing; otherwise the row goes whatever becomes of the blob. |
| Attachments.OneAttached.Attachment | attachment.go:110-121 | The stored attachment with the greatest id in the slot, if any. |
| Attachments.OneAttached.Attach | attachment.go:144-165 | On success the table with the latest row replaced and the new row holding the attachable's blob; on failure the table as it was. |
| Attachments.OneAttached.Detach | attachment.go:167-178 | The table without the latest row; blobs untouched. |
| Attachments.OneAttached.Purge | attachment.go:180-190 | The latest attachment purged, or nothing. |
| Attachments.RefsAtSlot | attachment.go:204-208 | The attachments found are the slot's rows in order, and a cached blob still stored is the stored one. |
| Attachments.ManyAttached.Attachments | attachment.go:204-208 | The slot's attachments in order, pairwise distinct. |
| Attachments.ManyAttached.Attach | attachment.go:236-252 | Whether or not it fails, the table grows by exactly the returned attachments, which hold the blobs of the attachables before the first refused one, in order; rows, disks, random source and error are those of resolving the attachables one after the other up to that one. |
| Attachments.AttachingIsRun | attachment.go:70-83 | What attaching a list does to blobs and disks is the run that creates its uploads, so what holds of runs holds of it. |
| Attachments.ManyAttached.Detach | attachment.go:254-266 | Deletes exactly the rows found and never fails. |
| Attachments.ManyAttached.Purge | attachment.go:268-280 | Purges the snapshot in order up to the first error. |
| Purging.PurgeDistinct | attachment.go:268-280 | Attachments of pairwise distinct live blobs are all purged: exactly their rows and objects are gone. |
| Purging.PurgeShared | attachment.go:268-280 | At the second use of a blob the purge stops; what came before is purged, what comes after is kept. |
| Purging.PurgeEmptiesSlot | attachment.go:268-280 | Such a slot is empty afterwards and no other slot has changed. |
| Purging.PurgeSharedSlot | attachment.go:57-68 | With a shared blob the slot keeps exactly the attachments after the second use, and that one too if it had no cached blob. |
| Purging.ReadyInRuns | blob.go:405-417 | In every state reached by blob operations the conditions of these theorems hold for distinct live blobs. |
| Concurrency.StepKeepsInv | attachment.go:144-165 | Every atomic step keeps the invariant: a call about to delete has inserted a later row in the same slot. |
| Concurrency.GreatestNeverDeleted | attachment.go:110-121 | Under every interleaving the greatest row ever inserted in a slot is live and is the one read back. |
| Concurrency.LatestNeverGoesBack | attachment.go:110-121 | A slot once non-empty is never seen empty, and the id read back never goes down. |
| Concurrency.RowConservation | attachment.go:144-165 | At every moment a slot's rows are the initial ones plus what each call has left there. |
| Concurrency.FinalRows | store.go:125-135 | When all calls have ended: initial rows, plus calls that saw an empty slot, plus calls that ended in ErrAttachmentNotFound. |
| Concurrency.UninterruptedCall | attachment.go:144-165 | Three steps of one call with nothing in between are the sequential attach. |
| Concurrency.UninterruptedMany | attachment.go:236-252 | The steps of one Many.Attach with nothing in between attach its blobs in order. |
| Races.DistinctViews | attachment.go:144-165 | If no two calls found the same when they looked, none loses a race and at most one found the slot empty. |
| Races.OneRowLeft | attachment.go:144-165 | From at most one row, when all One.Attach calls on the slot have ended and there were no others, at most one row is left if and only if no two of them found the same row, or both none. |
| Races.SerialKeepsOne | attachment.go:144-165 | One.Attach calls that do not overlap never lose a race, and leave at most one row if there was at most one. |
| Races.TwoRowsLeft | attachment.go:151-158 | An execution of two calls on an empty slot that leaves two rows. |
| Races.OneLosesRace | attachment.go:159-163 | An execution of two calls in which the second ends in ErrAttachmentNotFound and its row stays. |

## Left out

- The insides of MD5, SHA-1, SHA-256 and HMAC, and any claim that a token cannot be forged.
- Go's rounding of JSON numbers with fraction or exponent: the reader recognizes them, and the printer never writes them.
- Calendar arithmetic: instants are civil UTC fields, compared field by field.
- Ruby's Bignum and object links: no theorem equates a dump with what Ruby itself writes outside [-2^30, 2^30), where Ruby changes format.
- `int` and `int64` are one constructor of the value tree; both writers treat them alike on 64-bit machines.
- Failures of the file system itself (create, close, stat and remove errors), temporary files in `Blob.Open`, symbolic links, file names that are too long or hold NUL. Short keys, on which Go panics, are the error `ShortKey`.
- Reading a directory in place of an object is the one error `BadPath`, whatever system call reports it and whatever length is asked for.
- `Size`, `Processed`, `Blobs` and `Attached`: easy beside what they call.
- URLs, direct-upload tokens and headers, `BuildAfterUpload`, file names, content types, metadata and creation times of rows, `Variation.Format`.
- Registry: a map from names to services fixed before use; every service is registered under its own name, and different services have different roots.
- The image transformer: an arbitrary function from bytes to bytes or an error.
- The back pointer from blob and attachment to their Config: those operations are methods of the Config, or take it as an argument.
- Lifecycle.OpenChecks: keys are base36, at least four characters and new on their service, as generated keys are but for chance; keys chosen by callers in other shapes are modelled by the operations but not by the run theorems.
- Lifecycle.RunKeeps: attaching and detaching are not among the steps, because they touch neither blob rows nor objects.
- SignerTheorems.TokenRoundTrip: asks for a purpose in valid UTF-8, because an envelope replaces malformed bytes; GeneratedTokens gives the outcome for all purposes.
- Store.MemStore.FindBlob: asks, as all calls but the inserts do, that no pointer has been inserted twice; what the other calls do after that is not modelled.
- Wrap-around of int64 row ids.
- Attachments of purged blobs: cascading is deferred in the source, and no referential integrity is claimed.
- Concurrent Detach and Purge on a slot with concurrent attaches; concurrency inside blob operations.
