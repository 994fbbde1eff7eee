# Proofs about spilled.ink

A Dafny model of the parts of the spilled.ink mail server in which loops,
buffers and long-lived state carry the meaning: DKIM canonicalization, header
folding, modified UTF-7, IMAP sequence sets and SEARCH, the two mailbox
stores, the CSS reader and its escapes, the MIME tree, and the SMTP and IMAP
sessions. `dafny verify dfyconfig.toml` verifies all of it.

What the Go code does step by step is an imperative method here: a class where
the source has a struct with methods, an array where it works in a buffer, a
loop where it has a loop. Each such method is proved equal to a function of
its input or of the old state, and what the source promises is proved about
that function. Byte strings are `seq<byte>`, with `byte` the integers below
256. A reader delivers its bytes in pieces of any length, and its error with
or after the last one, so that what is proved holds for every way of cutting
the input.

## The modules

- `Bytes`, `Wrappers`, `IoReader`: bytes, an option, and a reader that cuts its
  input as it likes.
- `Utf8`, `Utf7Mod`, `Utf7Text`: UTF-8 as Go decodes it, the mailbox name
  encoding of section 5.1.3 of RFC 3501 on top of UTF-16 and base64, and what
  that looks like, told by its alphabet and its bits.
- `BodyCanon`, `BodyReaders`: the relaxed body of section 3.4.4 of RFC 6376 as a
  function, line by line as the RFC says it and byte by byte as the code does
  it; and the two chained readers that produce it in their callers' buffers.
- `HeaderFold`, `HeaderIndex`, `DkimHeaders`, `DkimFolding`, `DkimNames`,
  `RelaxedText`: how header values are folded into lines, how a header finds its
  values, what the DKIM signer hashes and what the verifier rebuilds from the
  folded text, the signed names among it, when the two agree, and what is
  hashed, word by word.
- `SeqSet`, `SeqText`, `ListReplay`: sequence sets with their text and scanner,
  and what a client makes of the numbers that EXPUNGE and MOVE report.
- `MailTables`, `MailRuns`, `MailOps`, `MailFlags`, `MailMoves`, `MailKeeps`,
  `MailStore`: the tables behind `spilldb/imapdb`. Single statements and all
  their runs; STORE, COPY, MOVE and EXPUNGE as functions of the rows, and message
  by message; and a class whose methods carry them out.
- `MemoryStore`, `MemoryRuns`, `MemoryMeaning`: the store in
  `imap/imaptest/memory.go`, operation by operation and over whole runs.
- `Search`, `SearchMeaning`: the SEARCH parser and matcher, and what each key
  means.
- `SourceReader`, `CssString`, `CssScanner`, `CssMeaning`: the rune reader under
  the CSS scanner, the escapes, the scanner's strings, urls and names, and their
  values.
- `MimeTree`, `MimeMeaning`: building, cleaving and building again, and the shape
  of what is built.
- `SmtpSession`, `SmtpReplies`, `SmtpAccess`: the SMTP session, what its replies
  stand for, and who may send.
- `ImapConn`, `ImapHistory`: the IMAP connection, and what it holds and has
  written, told from its history.

## Where the code does not do what it sets out to do

The model follows the code. Each of these is proved, most with the exact
condition under which the code is right.

- `trimTrailingCRLFs` keeps the order of its bytes, and gives what the RFC asks
  for, exactly when no lone CR or LF gets ahead of CRLFs it holds back
  (`OrderKept`, `TrimExact`, `TrimCounterexamples`). It writes past its buffer
  exactly when an ordinary byte comes when what is held back fills the rest of
  the buffer (`Pump`, `OverrunExample`). Over a whole body, the exact bound is the
  greatest length that a chunk of it overruns when read on its own: no cutting
  overruns a longer buffer, and some cutting one of that length (`CopyRelaxed`).
  Room for a chunk behind the most ever held back is enough (`RoomForChunk`). A
  blank body becomes one CRLF (`RelaxedExact`).
- The verifier finds a header by the beginning of its name, so a longer name in
  front hides the signed one (`ShadowedHeader`). Otherwise a header of single
  spaces agrees exactly when it has no word too long for its line
  (`TidyExact`).
- Folding counts the key wrongly: the first line may take 1002 bytes
  (`LongestLine`). It exceeds 998 exactly when the value runs past them without a
  space in front of column 80, and then just fits, or has its last space in the
  three places behind, or has none (`FirstLineExact`). A value under a key of 80
  bytes or more makes the slice fail (`EncodePanics`).
- A header made of entries alone forgets them in its lookups when one more is
  added before the first lookup (`AddForgets`). After any run a lookup is right
  exactly when nothing forgotten has its key, or the first known value is the
  same (`RunExact`).
- The guard against an odd number of bytes in a modified UTF-7 block is a
  remainder by one; the index after it runs off the end instead (`OddBlocks`).
- STORE with UNCHANGEDSINCE, on ranges that overlap, can change a message and
  list it as failed (`RefusedUntouched`, `OverlapRefuses`).
- MOVE by sequence number in the memory store compares numbers it has already
  shifted, and is right exactly for sets that hold all the messages from their
  first one on (`MemoryStore.MoveByNumberExact`). In `imapdb` a MOVE and each of
  its beginnings moves exactly the set when, and only when, no place is shifted
  into a range or out of it (`ListReplay.MoveByNumberExact`). Ascending disjoint
  ranges are such a set (`AscendingUnshifted`), "3,1:2" is not
  (`MoveOutOfOrder`). Later ranges may make good what an earlier one missed
  (`MadeGood`).
- "*" is read as an open range from 0, not as the largest number in use (section
  9 of RFC 3501): alone it holds every number (`LoneStar`). A range is read as it
  is meant exactly when it is closed, or begins at a number in use or below and
  is open, or there is but one number (`StarExact`).
- A number of more than eleven digits is read without those behind the eleventh:
  that is right exactly when the first eleven are too many already, or all are
  zeros (`DigitsExact`, `ZerosInFront`).
- The SEARCH key HEADER compares a whole header where section 6.4.4 of RFC 3501
  looks for a text in it: the answers are the same exactly if the header does
  not contain the text, or is the text (`HeaderMeans`). BEFORE compares times
  and SINCE days: they are opposites exactly when the message's day lies on the
  same side of the date as its time (`DatesMean`).
- Related parts are dropped from the tree when there are several bodies and none
  is HTML (`PartsConserved`); an `image/jpg` part comes back as `image/jpeg`
  (`RebuildExact`).
- A hex escape in CSS means what section 4.3.7 of CSS Syntax says exactly when it
  is neither that of 0, which is let through, nor of 10FFFF, which is replaced
  (`EscapeMeans`). An escaped line end goes into the value of a string
  (`StringLineEnd`), a string that the text ends in is a bad one (`StringMeans`),
  white space anywhere in a url without quotes is dropped (`RawUrlExact`), only
  "url" in small letters begins one (`IdentMeans`), and an escaped line end
  behind a name takes its backslash along (`NameEscapes`).
- The remnants of a bad CSS url end at an escaped parenthesis, against section
  4.3.14 of CSS Syntax (`RemnantsExact`).
- RCPT counts a recipient before it looks at the address (`ServeRcpt`), and RSET
  gets no reply (`ServeRset`).
- IDLE without a mailbox is remembered by the next one that is selected, since
  `closeMailbox` returns early: its updates are queued exactly if there was an
  IDLE since a mailbox was last left (`SelectQueues`, `IdleOutlivesSelect`).

## Model

| member | source | states |
|---|---|---|
| Utf8.DecodeEncode | imap/imapparser/utf7mod/utf7mod.go:75-82 | a scalar value, encoded and followed by anything, is decoded as itself with its own length |
| Utf8.SanitizeKeepsValid | imap/imapparser/utf7mod/utf7mod.go:92-105 | reading a text rune by rune keeps it exactly when it is valid UTF-8, and then and only then keeps its length |
| Utf8.Layout | imap/imapparser/utf7mod/utf7mod.go:75-82 | the encoding of a rune has one to four bytes by its size, and its bits behind the prefixes of RFC 3629 |
| Utf8.GoodIsEncoded | imap/imapparser/utf7mod/utf7mod.go:75-82 | bytes begin with a good rune if and only if the encoding of one stands there |
| Utf7Mod.RoundTrip | imap/imapparser/utf7mod/utf7mod.go:30-117 | for every byte string, decoding its encoding gives it back with each invalid byte replaced by U+FFFD |
| Utf7Mod.RoundTripExact | imap/imapparser/utf7mod/utf7mod.go:30-117 | the string comes back unchanged if and only if it is valid UTF-8 |
| Utf7Mod.EncodeInjective | imap/imapparser/utf7mod/utf7mod.go:80-117 | no two valid names share an encoding |
| Utf7Mod.EncodeIs7Bit | imap/imapparser/utf7mod/utf7mod.go:22-117 | the encoded form is 7-bit for any input |
| Utf7Mod.RunDecodes | imap/imapparser/utf7mod/utf7mod.go:58-105 | the UTF-16 block made of a run of non-ASCII text decodes to that run, surrogate pairs included |
| Utf7Mod.OddBlocks | imap/imapparser/utf7mod/utf7mod.go:54-70 | the decoder runs off the end of a block if and only if it has an odd number of bytes, which the guard never catches |
| Utf7Mod.AppendEncode | imap/imapparser/utf7mod/utf7mod.go:80-117 | the nested loops append the encoding of the input and keep what was in the destination |
| Utf7Mod.AppendUnits | imap/imapparser/utf7mod/utf7mod.go:58-70 | the loop over one decoded block, with all its error exits |
| Utf7Mod.AppendDecode | imap/imapparser/utf7mod/utf7mod.go:30-73 | the decoder appends to the destination just what decoding gives, or fails where it fails |
| Utf7Text.IndexIs | imap/imapparser/utf7mod/utf7mod.go:22 | a byte stands for its place in the alphabet of RFC 3501, written out, and every other byte for nothing |
| Utf7Text.EncodedBits | imap/imapparser/utf7mod/utf7mod.go:96-112 | the characters of a block, looked up in that alphabet and read as six bits each, are the bits of its bytes, with zeros behind to fill the last one |
| Utf7Text.DecodedGroups | imap/imapparser/utf7mod/utf7mod.go:43-57 | a block is decoded if and only if all of it is of the alphabet and no character is left alone, and its bytes are the bits of the characters, as far as there are eight |
| Utf7Text.LineEndsDrop | imap/imapparser/utf7mod/utf7mod.go:43-57 | a line end in a block is dropped, wherever it is, and nothing else |
| Utf7Text.Utf16Is | imap/imapparser/utf7mod/utf7mod.go:96-105 | a rune is one big-endian unit, or a high and a low surrogate that make it up |
| Utf7Text.UnitsMean | imap/imapparser/utf7mod/utf7mod.go:58-70 | a unit in front decodes to itself, or with the next to the rune the surrogates make, or is an error |
| Utf7Text.DecodeMeans | imap/imapparser/utf7mod/utf7mod.go:30-73 | what the decoder makes of plain bytes, "&-" and blocks, and which texts it refuses |
| Utf7Text.SlashStays | imap/imapparser/utf7mod/utf7mod.go:22-117 | a "/" stands in the encoded name if and only if one stands in the name |
| Utf7Text.PlainStays | imap/imapparser/utf7mod/utf7mod.go:80-95 | ASCII without "&" stands for itself, whatever comes behind |
| Utf7Text.RfcExample | imap/imapparser/utf7mod/utf7mod.go:80-117 | the name of section 5.1.3 of RFC 3501, in English, Chinese and Japanese, has the encoding given there |
| BodyCanon.ReduceSplit | email/dkim/dkim_verify.go:760-792 | reducing white space in two pieces is reducing it at once, whatever the cut |
| BodyCanon.EmitBalance | email/dkim/dkim_verify.go:707-747 | bytes put out plus bytes held back balance the bytes taken in, in every state |
| BodyCanon.MaxHeldIs | email/dkim/dkim_verify.go:707-747 | the most that is held back over an input is the largest of what its prefixes leave held back |
| BodyCanon.OrderKept | email/dkim/dkim_verify.go:713-746 | the trimming state machine keeps the order of its bytes if and only if no lone CR or LF comes while a CRLF is held back |
| BodyCanon.TrimExact | email/dkim/dkim_verify.go:684-750 | what it puts out is its input without the CRLFs at the end if and only if that input is orderly |
| BodyCanon.TrimCounterexamples | email/dkim/dkim_verify.go:713-731 | two inputs on which a lone LF overtakes a CRLF and a final CR is lost |
| BodyCanon.ReduceIsRelax | email/dkim/dkim_verify.go:752-792 | on a line, the byte machine is the line rule of the RFC: runs reduced, white space at the end dropped |
| BodyCanon.RelaxedIsRfc | email/dkim/dkim_verify.go:684-792 | for every body of CRLF lines, the two machines together are section 3.4.4 of RFC 6376, but for CRLF in the place of an empty result |
| BodyCanon.RelaxedExact | email/dkim/dkim_verify.go:684-695 | the result is the RFC's if and only if the body is not blank |
| BodyCanon.RelaxedTwice | email/dkim/dkim_verify.go:684-792 | canonicalizing a canonical body changes nothing |
| BodyReaders.ReduceWhitespace.Compact | email/dkim/dkim_verify.go:765-789 | the loop compacts the caller's buffer in place into the reduced form and never writes over an unread byte |
| BodyReaders.ReduceWhitespace.Read | email/dkim/dkim_verify.go:760-792 | a read takes a prefix of all that is to come, loses nothing, and gets on or reports the source's error |
| BodyReaders.TrimTrailingCRLFs.PumpByte | email/dkim/dkim_verify.go:708-746 | one turn of the loop in the caller's buffer: when it goes on, when it keeps its byte for want of room, and exactly when it writes past the end |
| BodyReaders.TrimTrailingCRLFs.Pump | email/dkim/dkim_verify.go:707-749 | over a whole call, past the end is written if and only if the pending bytes overrun the buffer, and otherwise output and what is to come make up what was to come |
| BodyReaders.TrimTrailingCRLFs.Read | email/dkim/dkim_verify.go:684-750 | each read delivers a prefix of the trimmed input and its final CRLF, with the refill and the epilogue, and the error only at the very end |
| BodyReaders.TrimTrailingCRLFs.CopyTo | email/dkim/dkim_verify.go:684-750 | copying to the end through a buffer of any length of 2 or more ends, and gives everything that was to come; it never overruns a buffer longer than any that a chunk of the body overruns, and does overrun one of just that length if the body is cut so |
| BodyReaders.CopyRelaxed | email/dkim/dkim_sign.go:122-133 | however a body is cut into reads, what is hashed is its relaxed form, unless a read overruns. None does if the copy buffer is longer than any that a chunk of the body overruns; of just that length, the cutting byte by byte up to that chunk overruns it |
| BodyReaders.RoomForChunk | email/dkim/dkim_verify.go:684-750 | a buffer with room for a chunk of 2048 bytes behind the most CRLFs the body makes the reader hold back is longer than that |
| BodyReaders.OverrunExample | email/dkim/dkim_verify.go:733-745 | 16384 CRLFs held back and one letter overrun the buffer of io.Copy |
| HeaderFold.FoldFits | email/header.go:52-87 | for keys below 80 bytes folding ends, its pieces make up the value, and no continuation exceeds 998 bytes with its padding |
| HeaderFold.EncodePanics | email/header.go:52-85 | encoding an entry fails if and only if its key has 80 bytes or more and its value is not empty |
| HeaderFold.EncodeFits | email/header.go:35-87 | for keys below 80 bytes the first line has at most 1002 bytes and each other at most 998 |
| HeaderFold.LongestLine | email/header.go:52-75 | a first line of 1002 bytes occurs |
| HeaderFold.FirstLineExact | email/header.go:52-85 | the first line exceeds 998 bytes if and only if the value does not fit it, no space comes in front of column 80, and it just fits the limit of 1001, or its last space is in the last three places for one, or it has none |
| HeaderFold.FoldUnfold | email/header.go:55-86 | deleting each CRLF with its padding gives the value back |
| HeaderFold.LinesBreak | email/header.go:52-86 | every line but the last ends at the last space that keeps it below 78 bytes, or for want of one below 998, or is cut at 998; the last one could stay whole |
| HeaderFold.Encode | email/header.go:19-89 | the loop with its two limits writes the folded text and counts it, but for entries without a value |
| HeaderIndex.BegunExact | email/header.go:97-103 | an index begun with one added entry lists the header's values if and only if there were no entries before |
| HeaderIndex.Header.Add | email/header.go:97-103 | the entry goes to the end and into the index; the index stays right if and only if there was one, or the header was empty |
| HeaderIndex.Header.Get | email/header.go:105-117 | the first value under the key, from an index made of all entries if there is none |
| HeaderIndex.Header.Del | email/header.go:119-130 | all entries of the key go, the others keep their order, and the index stays right |
| HeaderIndex.Header.Encode | email/header.go:132-143 | the folded entries in order and an empty line, or a failure where one of them fails |
| HeaderIndex.HeaderTextExact | email/header.go:132-143 | a header can be written if and only if no value stands under a key of 80 bytes or more |
| HeaderIndex.RunHeader | email/header.go:91-130 | over any run of additions, deletions and lookups: the entries are what the operations make of them, a lookup finds the first value of those not forgotten, and that is the first value there is if and only if no forgotten entry has the key or the values are the same |
| HeaderIndex.RunExact | email/header.go:91-130 | after any run a lookup is right if and only if no entry from before the index has its key, or the first one the index knows has the same value |
| HeaderIndex.BeginsWell | email/header.go:97-117 | a run forgets nothing if the header was empty, or is looked up before it is added to |
| HeaderIndex.AddForgets | email/header.go:97-111 | what is in a header without an index when an entry is added is forgotten, unless it is deleted |
| DkimHeaders.RefoldedExact | email/dkim/dkim_verify.go:395-413 | a value read line by line is the relaxed value if and only if each fold lies at white space and between lines with ink, and is never shorter |
| DkimHeaders.ReadMessage | email/dkim/dkim_verify.go:386-425 | on the lines of an encoded message the verifier writes the first header whose name extends the one looked for, unfolded and relaxed, or nothing |
| DkimHeaders.HeaderAgrees | email/dkim/dkim_verify.go:386-425 | signer and verifier agree on a header if and only if that first header has the relaxed form of the signed value |
| DkimHeaders.HeaderAgreesExact | email/dkim/dkim_verify.go:386-425 | for a header that is not shadowed they agree if and only if its value is folded at white space and between ink |
| DkimHeaders.ShadowedHeader | email/dkim/dkim_verify.go:395-402 | a header "Tox" in front of a signed "To" makes the verifier read other bytes than were signed |
| DkimHeaders.TagsKept | email/dkim/dkim_verify.go:510-528 | no tag of the signature other than b= is blanked |
| DkimHeaders.SignatureBlanked | email/dkim/dkim_verify.go:501-530 | the signature header read back and blanked is what the signer hashed before there was a signature |
| DkimHeaders.NamesRoundTrip | email/dkim/dkim_sign.go:135-148 | the names of the h= tag come apart as they were joined |
| DkimHeaders.Agreement | email/dkim/dkim_sign.go:62-111 | sign/verify agreement: signed, appended, folded, scanned and rebuilt, all header bytes that are hashed, the blanked signature with them, are those that were signed, if each signed header holds |
| DkimHeaders.WriteRelaxedValue | email/dkim/dkim_sign.go:170-193 | the signer's loop over a value writes its relaxed form |
| DkimHeaders.CollectRelaxedHeaders | email/dkim/dkim_sign.go:135-199 | the h= list and the hashed bytes, for the headers that have a value |
| DkimHeaders.WriteFWS | email/dkim/dkim_verify.go:366-384 | runs of white space and line ends become one space, or none behind another |
| DkimHeaders.ReadRelaxedHeader | email/dkim/dkim_verify.go:386-425 | the two scanning loops write the header found, for any lines and any name |
| DkimHeaders.RelaxedHeaders | email/dkim/dkim_verify.go:478-531 | everything the verifier hashes, repeated names once |
| DkimHeaders.WriteBlanked | email/dkim/dkim_verify.go:510-528 | the loop over the tags joins them again with b= blanked |
| DkimFolding.FoldsWhole | email/header.go:52-86 | a value of single spaces is folded at spaces and between ink if and only if no word of it is too long for a line |
| DkimFolding.TidyExact | email/dkim/dkim_verify.go:386-425 | for a header of single spaces that is not shadowed, the bytes rebuilt are the bytes signed if and only if it has no such word |
| DkimFolding.HeaderTextIs | email/msgbuilder/msgbuilder.go:63-76 | the header text written is the text whose lines the verifier reads |
| DkimFolding.TidyAgreement | email/msgbuilder/msgbuilder.go:63-76 | sign/verify agreement whenever the signed headers and the signature are tidy and not shadowed, told from the header alone |
| DkimNames.FoldSpreads | email/header.go:52-86 | a tidy value is written as itself with folds in front of some of its spaces |
| DkimNames.ReadHeader | email/dkim/dkim_verify.go:297-350 | the two loops find the first header that begins with the name and colon, with its continuation lines as they are |
| DkimNames.ReadTag | email/dkim/dkim_verify.go:66-96 | one tag: its key and value trimmed, the names if it is h=, and malformed exactly if it has a byte that is no white space but no "=" |
| DkimNames.ReadNames | email/dkim/dkim_verify.go:63-134 | the loop over the tags: the names of the h= tags in order, and malformed if and only if some part between semicolons has a byte that is no white space and no "=" |
| DkimNames.BadIsMalformed | email/dkim/dkim_verify.go:66-84 | a header cut at its semicolons has a bad part if and only if some stretch of it between two of them, or an end, has ink and no "=" |
| DkimNames.TagRead | email/dkim/dkim_verify.go:66-84 | in the folded text a tag has its key as it was, and its value if that is a word |
| DkimNames.FoldedNames | email/dkim/dkim_verify.go:63-134 | from the folded signature the names of its h= tag are read as they were joined |
| DkimNames.NamesFromText | email/dkim/dkim_verify.go:63-134 | from the lines of a whole message whose signature is tidy and the first of its kind exactly the signed names are read |
| DkimNames.TextAgreement | email/dkim/dkim_verify.go:478-531 | sign/verify agreement on the text alone: with the names found in it, the header bytes hashed are those that were signed |
| DkimNames.FindNames | email/dkim/dkim_verify.go:297-330 | from the lines of a message: whether there is a signature, whether it is malformed, and its names |
| DkimNames.VerifySigned | email/dkim/dkim_verify.go:297-350 | end to end: of a message with a tidy signature in front the verifier finds that signature, takes it for well formed, reads exactly the signed names and hashes exactly the bytes the signer hashed |
| RelaxedText.ValueIs | email/dkim/dkim_sign.go:168-193 | the relaxed form of a header value is its words with one space between each two |
| RelaxedText.SignedLineIs | email/dkim/dkim_sign.go:150-197 | what is hashed of a header is its name, a colon, those words and a line end |
| RelaxedText.GetIs | email/dkim/dkim_sign.go:113-120 | the value signed is that of the first header of the name, in letters of either case |
| RelaxedText.BodyLineIs | email/dkim/dkim_verify.go:752-792 | a relaxed body line is its words with one space between each two, and one in front if the line begins with white space |
| RelaxedText.FoldedTextIs | email/header.go:35-87 | a header is written as its key, a colon, and the pieces of its value with a line end and four spaces between them |
| RelaxedText.SignatureIs | email/dkim/dkim_sign.go:62-85 | the text of a signature, tag by tag |
| SeqSet.SeqContains | imap/imapparser/search.go:140-147 | true exactly when some range holds the number, an open one included |
| SeqSet.FoldExpand | imap/imapparser/typeshelp.go:250-262 | for every list of positive numbers, expanding the ranges built from it gives it back in order, and no two neighbours could be one range |
| SeqSet.AppendSeqRange | imap/imapparser/typeshelp.go:250-262 | the last range is put in order and extended, or a new one begun |
| SeqSet.FormatRead | imap/imapparser/scanner.go:519-559 | the scanner reads the text of any set as its ranges in order, and stops behind it |
| SeqSet.FormatReadExact | imap/imapparser/scanner.go:519-559 | the same ranges come back if and only if none is written upside down |
| SeqSet.StarExact | imap/imapparser/scanner.go:424-540 | of the numbers in use, a range is read as section 9 of RFC 3501 means it if and only if it is closed, or open from a number in use or below, or "*" stands in front and the one number there is lies in it |
| SeqSet.LoneStar | imap/imapparser/search.go:140-147 | alone, "*" holds every number |
| SeqSet.ThroughText | imap/imapparser/typeshelp.go:11-53 | numbers folded, written and read are the same numbers |
| SeqSet.CopyUidPairs | imap/imapserver/imapserver.go:1216-1222 | the two sets of COPYUID give back both lists of UIDs, paired in order (section 3 of RFC 4315) |
| SeqSet.FormatSeqs | imap/imapparser/typeshelp.go:11-53 | the loop writes the text of the set |
| SeqSet.Scanner.ReadUint32 | imap/imapparser/scanner.go:445-464 | all digits are consumed, eleven of them count, and what exceeds 32 bits is an error |
| SeqSet.Scanner.ReadSeqNumber | imap/imapparser/scanner.go:424-443 | a number, a star, nothing, or an error, with what is left |
| SeqSet.Scanner.ReadSequence | imap/imapparser/scanner.go:519-540 | one range in order is added, or none with an error noted |
| SeqSet.Scanner.ReadSequences | imap/imapparser/scanner.go:547-559 | the whole set, as far as it can be read |
| SeqText.FormatIs | imap/imapparser/typeshelp.go:11-53 | the text of a set, character by character: decimals or "*", ":" between the ends of a range, "," between ranges |
| SeqText.DecimalIs | imap/imapparser/typeshelp.go:25-47 | a number is written as the digits whose weights add up to it, without a zero in front |
| SeqText.DigitsExact | imap/imapparser/scanner.go:445-464 | digits are read as the number they write, or refused beyond 32 bits, if and only if there are eleven at most, the first eleven are too many, or all are zeros |
| SeqText.ZerosInFront | imap/imapparser/scanner.go:445-464 | of 1 with eleven zeros in front zero is read |
| SeqText.NumberReads | imap/imapparser/scanner.go:424-464 | up to eleven digits are the number they write, "*" is 0, and zero and more than 32 bits are refused |
| SeqText.OtherReads | imap/imapparser/scanner.go:424-443 | anything else is an error, but the end and a NUL |
| SeqText.RangeReads | imap/imapparser/scanner.go:519-545 | two numbers with a colon are their range, put in order unless the second is "*", one alone is itself, and a colon without a number behind it is an error |
| ListReplay.ReportedReplay | spilldb/imapdb/imapdb.go:607-635 | removing the reported numbers one by one from the old list leaves exactly the messages that were kept (section 7.4.1 of RFC 3501) |
| ListReplay.ChosenAndKept | spilldb/imapdb/imapdb.go:607-629 | chosen and kept messages together are all of them, each once |
| ListReplay.MoveRangesReplay | spilldb/imapdb/imapdb.go:997-1065 | the numbers a MOVE reports replay to what it leaves, by number and by UID, for any ranges |
| ListReplay.MoveBySequenceNumber | spilldb/imapdb/imapdb.go:997-1065 | for ascending disjoint ranges, shifting each by what has moved moves exactly the messages whose original numbers are in the set, in order |
| ListReplay.MoveByPlaces | spilldb/imapdb/imapdb.go:997-1065 | whatever the ranges, a MOVE by number takes the places that each range, shifted by the places behind them already taken, selects in turn |
| ListReplay.MoveByNumberExact | spilldb/imapdb/imapdb.go:997-1065 | a MOVE by number and each of its beginnings moves exactly the messages whose numbers are in the set if and only if no place is shifted into a range or out of it |
| ListReplay.UnshiftedMoves | spilldb/imapdb/imapdb.go:997-1065 | so such a set, in any order and with overlaps, moves exactly its messages |
| ListReplay.MoveWholeExact | spilldb/imapdb/imapdb.go:997-1065 | corollary of `MoveByPlaces` on different messages: the whole MOVE is exact if and only if the places taken in turn are those of the set |
| ListReplay.AscendingUnshifted | spilldb/imapdb/imapdb.go:1003-1006 | ascending disjoint ranges are never shifted so |
| ListReplay.MadeGood | spilldb/imapdb/imapdb.go:1003-1006 | "2,1" on two messages misses one that "2,1,1:2" takes, so a shifted set may still end well |
| ListReplay.MoveOutOfOrder | spilldb/imapdb/imapdb.go:1003-1006 | for ranges out of order it moves others |
| ListReplay.MoveByUid | spilldb/imapdb/imapdb.go:997-1065 | by UID, ranges in any order and overlapping move each selected message once |
| ListReplay.MoveKeeps | spilldb/imapdb/imapdb.go:997-1065 | whatever the ranges, each message moves once or stays |
| MemoryStore.DropKeeps | imap/imaptest/memory.go:414-441 | removing and renumbering keeps numbers equal to places and UIDs ascending |
| MemoryStore.JoinKeeps | imap/imaptest/memory.go:568-581 | joining with the next UIDs and numbers keeps them, too |
| MemoryStore.MoveConserves | imap/imaptest/memory.go:542-585 | both mailboxes together hold the same mails before and after a MOVE |
| MemoryStore.MoveMaskByUid | imap/imaptest/memory.go:559-565 | by UID a MOVE selects exactly the messages whose UIDs are in the set |
| MemoryStore.MoveMaskByNumber | imap/imaptest/memory.go:557-566 | by number it selects all messages from the first one in the set on, whatever else the set holds |
| MemoryStore.MoveByNumberExact | imap/imaptest/memory.go:557-566 | by number it selects what COPY would if and only if the set holds all messages from its first one on |
| MemoryStore.MoveByNumberCounterexample | imap/imaptest/memory.go:557-566 | asked to move the first of two messages it moves both |
| MemoryStore.ExpungeReplay | imap/imaptest/memory.go:418-438 | the numbers reported in place replay to the messages left |
| MemoryStore.ReportNumbers | imap/imaptest/memory.go:553-577 | the numbers MOVE reports are those of one pass over the old list |
| MemoryStore.MoveReplay | imap/imaptest/memory.go:553-582 | the numbers MOVE reports replay to the messages left |
| MemoryStore.Mailbox.Append | imap/imaptest/memory.go:323-354 | one message more, with the next UID, number and mod-sequence, and without \Recent |
| MemoryStore.Mailbox.Expunge | imap/imaptest/memory.go:414-441 | the loop in place leaves the messages not selected, renumbered, and reports the numbers of one replay |
| MemoryStore.Mailbox.Move | imap/imaptest/memory.go:542-585 | both lists, both UID counters and all reports after the loop over a shrinking list; moving to itself is refused |
| MemoryStore.Mailbox.Copy | imap/imaptest/memory.go:587-625 | the selected messages join the other mailbox under new UIDs, this one is unchanged, and the pairs tell which is which |
| MemoryStore.Mailbox.SetSeen | imap/imaptest/memory.go:667-676 | only the flags of one message change, and only if it was not seen |
| MemoryRuns.StepSound | imap/imaptest/memory.go:323-625 | on any number of mailboxes, every operation keeps numbers equal to places, UIDs ascending below the next one and mod-sequences below the counter; the next UID never falls, and a UID handed out before means the message it meant |
| MemoryRuns.StepConserves | imap/imaptest/memory.go:323-625 | all the mail there is, with what an operation expunged, is what there was with what it appended or copied; a MOVE changes nothing in that |
| MemoryRuns.RunSound | imap/imaptest/memory.go:323-625 | so the invariant holds over every run, from any sound store |
| MemoryRuns.RunConserves | imap/imaptest/memory.go:323-625 | and so the mail is conserved over every run |
| MemoryRuns.MovesConserve | imap/imaptest/memory.go:542-585 | a run of MOVEs between any mailboxes keeps all the mail |
| MemoryRuns.RunsAreSafe | imap/imaptest/memory.go:323-676 | over every run on empty mailboxes: numbers are places, UIDs ascend, no UID changes its meaning from any point of the run to its end, and the mail there is, with what was expunged, is what was appended or copied |
| MemoryRuns.Do | imap/imaptest/memory.go:323-676 | an operation carried out on the mailboxes is that step |
| MemoryRuns.DoAll | imap/imaptest/memory.go:323-676 | a run carried out on the mailboxes is that run |
| MemoryMeaning.AppendMeans | imap/imaptest/memory.go:323-354 | APPEND adds one message behind the others, with the next UID, the first being 1, and the flags given without \Recent |
| MemoryMeaning.ExpungeMeans | imap/imaptest/memory.go:414-441 | after EXPUNGE a UID is there with its mail if and only if it was, and was not both flagged \Deleted and in the set |
| MemoryMeaning.CopyMeans | imap/imaptest/memory.go:587-625 | COPY adds the mails of the messages of the set, in order and under the next UIDs, and changes nothing else |
| MemoryMeaning.MoveMeans | imap/imaptest/memory.go:542-585 | MOVE by UIDs does the same, and exactly the messages of the set leave |
| MemoryMeaning.SeenMeans | imap/imaptest/memory.go:667-683 | reading a body sets \Seen on that message and changes nothing else |
| MailTables.NewValidity | spilldb/spillbox/mailbox.go:22-28 | a mailbox created or deleted gets a UIDVALIDITY above all there were |
| MailTables.CreateSound | spilldb/spillbox/mailbox.go:22-42 | creating, also under a name used before, keeps all invariants |
| MailTables.DeleteSound | spilldb/spillbox/sql_spillbox.go:172-179 | deleting, with the trigger that renews UIDVALIDITY, keeps them |
| MailTables.TakeUidSound | spilldb/spillbox/insertmsg.go:542-559 | taking a UID hands out an identity never given before |
| MailTables.StepSound | spilldb/spillbox/insertmsg.go:542-585 | every statement keeps all invariants |
| MailTables.RunSound | spilldb/spillbox/insertmsg.go:542-585 | so does every run of statements, from any sound tables |
| MailTables.RunsAreSafe | spilldb/spillbox/sql_spillbox.go:38-63 | over every run from empty tables: no (name, UIDVALIDITY, UID) twice, no UIDVALIDITY shared, the mod-sequences of a name strictly rise, and every message there to see is below its name's counter |
| MailRuns.CreatedIs | spilldb/spillbox/mailbox.go:13-64 | a new mailbox is found, behind the others, empty, with UID 1 to come, and with a UIDVALIDITY of 43 or one more than the highest |
| MailRuns.DeletedIs | spilldb/spillbox/mailbox.go:66-92 | a deleted mailbox is not found any more, its UIDVALIDITY is one more than the highest, and every other one stays |
| MailRuns.FoundRemembered | spilldb/spillbox/mailbox.go:13-92 | over every run a name is found if and only if it was created and has not been deleted since |
| MailRuns.RowsStep | spilldb/imapdb/imapdb.go:667-1068 | what each statement changes in the rows, and that it changes nothing else |
| MailRuns.RowsLast | spilldb/imapdb/imapdb.go:574-1068 | over every run a row keeps its body, and is there to see until it is expunged |
| MailRuns.NoGaps | spilldb/spillbox/insertmsg.go:542-581 | over every run each mailbox has given out the UIDs 1, 2 and so on under its UIDVALIDITY, and each name the mod-sequences 1, 2 and so on |
| MailOps.WindowIs | spilldb/imapdb/imapdb.go:689-703 | the window query yields all messages there to see in a mailbox, by UID |
| MailOps.WindowUnique | spilldb/imapdb/imapdb.go:689-703 | and nothing else does |
| MailOps.StoreRow | spilldb/imapdb/imapdb.go:716-796 | however often a STORE comes across a message, it ends up as if once |
| MailOps.StoreStamps | spilldb/imapdb/imapdb.go:732-788 | the mod-sequence of a message changes if and only if its flags do, and then to the new one |
| MailOps.RefusedExact | spilldb/imapdb/imapdb.go:748-756 | how often a message is listed as failed, in terms of how often it is come across |
| MailOps.RefusedUntouched | spilldb/imapdb/imapdb.go:748-756 | a message is both listed as failed and changed if and only if ranges overlap on it and the first replace changes it (section 3.1 of RFC 7162) |
| MailOps.OverlapRefuses | spilldb/imapdb/imapdb.go:707-796 | that happens |
| MailOps.StoreRangesFlat | spilldb/imapdb/imapdb.go:707-797 | querying anew for each range yields the places there were at first |
| MailOps.HitsAreCover | spilldb/imapdb/imapdb.go:707-725 | a message is come across once for each range that covers its number or UID |
| MailOps.StoreBySet | spilldb/imapdb/imapdb.go:667-800 | a STORE on a set changes exactly the messages in it, and for disjoint ranges lists exactly those it refused |
| MailOps.StoreOthers | spilldb/imapdb/imapdb.go:689-696 | messages of other mailboxes, and expunged ones, are not touched |
| MailFlags.StoreMeans | spilldb/imapdb/imapdb.go:704-800 | flag by flag, of each message the set names and that is not refused: after +FLAGS a flag is there if and only if it was or is given, after -FLAGS if and only if it was and is not given, after FLAGS if and only if it is given; nothing else changes |
| MailFlags.StoreAnswers | spilldb/imapdb/imapdb.go:704-800 | exactly the messages that were changed, or had been since the time named, are answered, each with the UID, number, flags and mod-sequence it then has in the table |
| MailFlags.StoreFailed | spilldb/imapdb/imapdb.go:704-800 | exactly the messages of the set that were changed after the time named are listed as failed by a FLAGS |
| MailMoves.CopyExact | spilldb/imapdb/imapdb.go:858-960 | COPY adds copies of the selected rows in order under the next UIDs, all with one mod-sequence, changes no other row, and pairs old and new UIDs |
| MailMoves.MoveIsRanges | spilldb/imapdb/imapdb.go:962-1068 | on both mailboxes' windows, the row updates and tombstones of a MOVE are the list operation of `ListReplay` |
| MailMoves.MoveByNumber | spilldb/imapdb/imapdb.go:997-1065 | by ascending disjoint ranges it moves exactly the chosen numbers, in order, to the end of the other mailbox, and its reports replay |
| MailMoves.MoveBySet | spilldb/imapdb/imapdb.go:997-1065 | on the tables, for any set: a MOVE and each of its beginnings leaves exactly the messages not in the set if and only if no place is shifted, and then exactly the others arrive, under the next UIDs |
| MailMoves.MoveByUids | spilldb/imapdb/imapdb.go:997-1065 | by UID it moves exactly the chosen messages, for ranges in any order |
| MailMoves.MoveKeepsMail | spilldb/imapdb/imapdb.go:1029-1038 | a message that moves keeps its flags and body |
| MailKeeps.CopyKeepsMail | spilldb/imapdb/imapdb.go:858-960 | each pair a COPY reports, into whichever mailbox, stands for a new message under the next UID with the flags and the body of the one it copies |
| MailKeeps.MovePairs | spilldb/imapdb/imapdb.go:962-1068 | each report of a MOVE stands for a message that was there and is now in the destination under the reported UID with its flags and its body; an expunged row keeps its old UID |
| MailMoves.ExpungeExact | spilldb/imapdb/imapdb.go:574-638 | EXPUNGE hides exactly the deleted messages selected, the rest keep their order, and its reports replay |
| MailKeeps.ExpungeMeans | spilldb/imapdb/imapdb.go:574-648 | EXPUNGE hides a message if and only if it is there to see, flagged \Deleted and, if UIDs are given, in one of the ranges; no other one changes |
| MailMoves.SameReports | imap/imaptest/memory.go:418-438 | the in-place EXPUNGE and the one by query report the same numbers for the same mailbox and set |
| MailStore.SetEq | spilldb/imapdb/imapdb.go:802-820 | true exactly when the flag sets are equal |
| MailStore.AddFlags | spilldb/imapdb/imapdb.go:734-740 | the union, and whether it changed anything |
| MailStore.RemoveFlags | spilldb/imapdb/imapdb.go:741-747 | the difference, and whether it changed anything |
| MailStore.StoreStampsExactly | spilldb/imapdb/imapdb.go:667-800 | in sound tables a whole STORE changes the mod-sequence of a message if and only if its flags change, and raises it |
| MailStore.Box.CreateMailbox | spilldb/spillbox/mailbox.go:13-64 | for a name at the top, or below a mailbox that may have none below it: a new row with UID 1 and the next UIDVALIDITY, a counter if there was none, or an error if the name is in use or not allowed |
| MailStore.Box.DeleteMailbox | spilldb/spillbox/mailbox.go:66-80 | the name is taken away and UIDVALIDITY renewed, or an error for reserved and unknown names |
| MailStore.Box.NextMsgUID | spilldb/spillbox/insertmsg.go:542-559 | the next UID, which is handed out once |
| MailStore.Box.NextMsgModSeq | spilldb/spillbox/insertmsg.go:561-585 | the counter of the mailbox's name, or an error for a deleted mailbox |
| MailStore.Box.Deliver | spilldb/spillbox/insertmsg.go:320-393 | a delivered message gets a fresh identity and mod-sequence, or nothing changes |
| MailStore.Box.Assign | spilldb/spillbox/insertmsg.go:341-393 | the mailbox given, or Subscriptions or INBOX as the headers have it, gets the message |
| MailStore.Box.StoreRow | spilldb/imapdb/imapdb.go:723-795 | one row of a STORE: its new flags, what is answered and what is listed as failed |
| MailStore.Box.Store | spilldb/imapdb/imapdb.go:667-800 | the whole STORE: all rows, the answers in order, the failed set, whose expansion is the list of those refused, and the mod-sequence taken, with every invariant kept |
| MailStore.FailedExpands | spilldb/imapdb/imapdb.go:748-756 | the failed set expands to the UIDs or numbers of the messages refused, in order |
| MailStore.Box.CopyMsg | spilldb/imapdb/imapdb.go:916-960 | one copy under the next UID |
| MailStore.Box.Copy | spilldb/imapdb/imapdb.go:858-914 | the whole COPY as a function of the tables, with every invariant kept, or an error that changes nothing |
| MailStore.Box.MoveMsg | spilldb/imapdb/imapdb.go:1024-1062 | one message to its new place, and a tombstone at the old |
| MailStore.Box.Move | spilldb/imapdb/imapdb.go:962-1068 | the whole MOVE with its two running shifts, with every invariant kept, or an error that changes nothing |
| MailStore.Box.Expunge | spilldb/imapdb/imapdb.go:574-638 | the rows of one query less the count of those gone |
| SourceReader.GoodGet | html/css/sourcereader.go:151-165 | reading a rune keeps line, column and count those of the bytes read |
| SourceReader.GoodUnget | html/css/sourcereader.go:172-186 | unreading restores offset, line and column, also across a line end and a slide |
| SourceReader.LineMeans | html/css/sourcereader.go:146-173 | the line is the number of line ends read |
| SourceReader.ColumnMeans | html/css/sourcereader.go:146-173 | the column is the number of bytes read behind the last line end |
| SourceReader.AheadMeans | html/css/sourcereader.go:112-139 | the runes ahead are those of the text in order, with NUL replaced if asked for, and -1 for each place behind the last |
| SourceReader.Source.Fill | html/css/sourcereader.go:40-65 | making room and reading loses nothing; the limit error never occurs |
| SourceReader.Source.FillTo | html/css/sourcereader.go:101-111 | the rune ahead is decided or the input has ended; the buffer is never full |
| SourceReader.Source.Peek | html/css/sourcereader.go:77-94 | the next rune of what is to come, which stays |
| SourceReader.Source.PeekRunes | html/css/sourcereader.go:113-138 | the next runes of what is to come, up to 1000, padded with -1 at the end |
| SourceReader.Source.GetRune | html/css/sourcereader.go:143-168 | the next rune, consumed, for every chunking |
| SourceReader.Source.UngetRune | html/css/sourcereader.go:172-186 | right after a rune was read it is to come again and everything is as before; a second time it is an error |
| SourceReader.Source.Pos | html/css/sourcereader.go:190-192 | lines, bytes into the line and bytes in all of what was read |
| SourceReader.ReadAll | html/css/sourcereader.go:143-192 | reading to the end gives the decoded rune sequence of the input for every chunking |
| CssString.AppendEscapedString | html/css/format.go:7-21 | the escaped text behind what was there |
| CssString.AppendValue | html/css/format.go:33-40 | the quoted and the url form |
| CssString.CleanExact | html/css/sourcereader.go:77-94 | reading a text with NULs replaced keeps it if and only if it is valid UTF-8 without NUL |
| CssString.SameRune | html/css/format.go:7-21 | escaping byte by byte never breaks up a rune |
| CssString.StringRoundTrip | html/css/scanner.go:663-698 | for every text and anything behind it, scanning the quoted form gives one string with the text, cleaned, and stops behind the closing quote |
| CssString.StringValueExact | html/css/scanner.go:663-698 | the value is the text if and only if that is valid UTF-8 without NUL |
| CssString.UrlRoundTrip | html/css/scanner.go:452-474 | the url form is one url token with that value, ending at its parenthesis |
| CssString.RemnantsIgnoreEscapes | html/css/scanner.go:617-631 | behind a bad url even an escaped parenthesis is the end, where the rule goes on |
| CssString.RemnantsExact | html/css/scanner.go:617-631 | the remnants of a bad url end where CSS Syntax says if and only if no escaped parenthesis with something behind it comes before the first that is not escaped |
| CssMeaning.EscapeMeans | html/css/scanner.go:718-771 | up to six hex digits stand for the number they write, one white space behind them goes along, and the rune is that of CSS Syntax if and only if the number is neither 0 nor 10FFFF |
| CssMeaning.PlainEscape | html/css/scanner.go:718-757 | any other rune stands for itself, and the end of the text for U+FFFD |
| CssMeaning.StringMeans | html/css/scanner.go:663-698 | behind either quote, plain text up to the quote is a string of that value, and up to a line end or the end of the text it is a bad one |
| CssMeaning.StringLineEnd | html/css/scanner.go:684-690 | an escaped line end goes into the value |
| CssMeaning.StringQuote | html/css/scanner.go:684-693 | so does an escaped quote of either kind |
| CssMeaning.RawUrlExact | html/css/scanner.go:578-614 | a url without quotes or escapes is a good one if and only if nothing in it is forbidden, has its text without white space as its value, and either way ends at its parenthesis |
| CssMeaning.RawEscapes | html/css/scanner.go:589-598 | an escape in such a url goes into its value, but an escaped line end makes it a bad one |
| CssMeaning.EscapeAheadMeans | html/css/scanner.go:617-631 | where an escape begins: at a backslash without a line end behind it |
| CssMeaning.NameEscapes | html/css/scanner.go:633-654 | an escape in a name goes into it, but at an escaped line end the name ends and the backslash is lost |
| CssMeaning.IdentMeans | html/css/scanner.go:452-474 | name code points are a function in front of a parenthesis, a url if they are "url" in small letters, and an identifier otherwise, with the text as value |
| CssScanner.Scanner.ReadHex | html/css/scanner.go:759-771 | at most so many digits, their value and their text |
| CssScanner.Scanner.ReadEscape | html/css/scanner.go:718-753 | an escaped code point: hex digits with one white space behind them, surrogates and too large values replaced, the end of the input |
| CssScanner.Scanner.NextString | html/css/scanner.go:663-698 | the token at either quote |
| CssScanner.Scanner.ReadString | html/css/scanner.go:663-698 | the loop of a string with its escapes, line ends and errors |
| CssScanner.Scanner.BadURLRemnants | html/css/scanner.go:617-631 | the loop to the first parenthesis, with its unread backslash |
| CssScanner.Scanner.Url | html/css/scanner.go:544-615 | a url with or without quotes, to every one of its exits |
| CssScanner.Scanner.Name | html/css/scanner.go:633-654 | the longest name with its escapes |
| CssScanner.Scanner.IdentLike | html/css/scanner.go:452-474 | a name, a function or a url |
| CssScanner.ReadBack | html/css/format.go:37-40 | end to end: a url written by the formatter and delivered in any pieces comes back as its text |
| CssScanner.ReadBackString | html/css/format.go:33-36 | end to end: so does a string, as one token without an error |
| Search.LeafRender | imap/imapparser/parser.go:989-1030 | a key without children, written and read, consumes just its tokens |
| Search.ParseRender | imap/imapparser/parser.go:972-1129 | on the tokens of any supported tree the parser ends, consumes exactly those tokens and returns the tree with its ANDs of one child collapsed |
| Search.CommandRoundTrip | imap/imapparser/parser.go:941-967 | so for the keys of a whole command |
| Search.MatchCollapse | imap/imapparser/search.go:31-138 | a tree and its collapsed form give the same answer on every message |
| Search.CommandMeaning | imap/imapparser/parser.go:941-968 | the parsed command matches a message if and only if every key as sent does |
| SearchMeaning.TreesMean | imap/imapparser/search.go:33-70 | AND matches if every key of it does, OR if one does, NOT if its key does not |
| SearchMeaning.FlagsMean | imap/imapparser/search.go:63-135 | each flag key matches if and only if that flag is set, or is not |
| SearchMeaning.OppositesMean | imap/imapparser/search.go:63-135 | UNSEEN, UNANSWERED, UNDELETED, UNFLAGGED and OLD are NOT of their counterparts, and NEW is RECENT together with UNSEEN |
| SearchMeaning.NumbersMean | imap/imapparser/search.go:47-62 | a number or UID is in the set if and only if it is in some range, ALL holds, LARGER, SMALLER and MODSEQ compare, and BODY, TEXT, KEYWORD and the SENT keys match nothing |
| SearchMeaning.SizesMean | imap/imapparser/search.go:57-60 | no message is both larger and smaller, and one that is neither has that size |
| SearchMeaning.DatesMean | imap/imapparser/search.go:53-90 | ON is the day, SINCE is ON or a later day, BEFORE an earlier time; SINCE and BEFORE are opposites exactly if day and time lie on the same side |
| SearchMeaning.HeadersMean | imap/imapparser/search.go:102-111 | BCC, CC, FROM, SUBJECT and TO match if and only if the value stands in that header at some place |
| SearchMeaning.HeaderMeans | imap/imapparser/search.go:91-101 | HEADER matches if and only if the header is the value, which is what the RFC asks for exactly if the value is not in it or is all of it |
| SearchMeaning.KeysRead | imap/imapparser/parser.go:989-1126 | which arguments each key takes, and that anything else is an error |
| SearchMeaning.ModSeqReads | imap/imapparser/parser.go:1102-1126 | MODSEQ takes a number, and ignores the name and the type of an entry |
| SearchMeaning.NumberReads | imap/imapparser/parser.go:1102-1126 | decimal numbers of 64 bits with a sign and zeros in front |
| SearchMeaning.NoNumber | imap/imapparser/parser.go:1102-1126 | a byte that is no digit, but for a sign in front of others, makes it no number |
| SearchMeaning.KnownTrees | imap/imapparser/parser.go:972-1129 | the round trip holds for all trees made of keys with their arguments and lists of them |
| SearchMeaning.KnownLeaves | imap/imapparser/parser.go:989-1126 | among them every key of one kind of argument with any argument of that kind |
| Search.Parser.ParseSearchKey | imap/imapparser/parser.go:972-1129 | recursive descent is the specified parse, with every error |
| Search.Parser.ParseList | imap/imapparser/parser.go:1076-1100 | the loop over a parenthesized list |
| Search.Parser.ParseArguments | imap/imapparser/parser.go:989-1126 | what follows each kind of key |
| Search.Parser.ParseSearch | imap/imapparser/parser.go:941-968 | the loop over the keys of the command |
| MimeTree.FlattenTree | email/msgcleaver/msgcleaver.go:105-135 | classifying the leaves of a built tree by container and place recovers whether each is a body and whether an attachment |
| MimeTree.PartsConserved | email/msgbuilder/tree.go:81-110 | every part is a leaf exactly once if and only if there is one body, an HTML one, or nothing related; otherwise just the related parts are missing |
| MimeMeaning.TreeMeans | email/msgbuilder/tree.go:41-140 | the shape of the tree: attachments behind the body in a multipart/mixed, several bodies as alternatives in order, and the related parts with the body or the first HTML one |
| MimeMeaning.EncodingMeans | email/msgbuilder/tree.go:220-274 | a part is 7bit if and only if it is ASCII without NUL in lines of 120 bytes at most, and base64 if and only if it is neither ASCII nor plain text or HTML |
| MimeMeaning.TypesMean | email/msgcleaver/msgcleaver.go:93-96 | two tokens with a slash are a media type, in small letters, whatever white space and parameters are around them |
| MimeMeaning.ContainersMean | email/msgcleaver/msgcleaver.go:218-224 | such a type is a container if and only if its first token is "multipart", in letters of either case |
| MimeMeaning.TypeSeenMeans | email/msgbuilder/tree.go:181-216 | the type the encoding depends on is the one in the Content-Type as it is written, with its charset and its name, up to the first semicolon |
| MimeMeaning.WritableMeans | email/msgbuilder/tree.go:189-226 | a part can be written if and only if no quote stands in its content ID or its name, and it has content or an encoding |
| MimeMeaning.NamesMean | email/msgbuilder/tree.go:142-159 | a part without a name that is no body is called by its place, and nothing else changes |
| MimeMeaning.NamesDiffer | email/msgbuilder/tree.go:142-159 | no two such parts are called alike |
| MimeTree.TypedExact | email/msgcleaver/msgcleaver.go:93-96 | a built message can be cleaved if and only if each part it holds has a media type |
| MimeTree.SteadyExact | email/msgbuilder/tree.go:189-274 | which parts have a header that is read as it was written |
| MimeTree.RebuildExact | email/msgbuilder/tree.go:41-140 | built, cleaved and built again from the same seed, a message gives the same tree if and only if every leaf is such a part |
| MimeTree.Msg.PullParts | email/msgbuilder/tree.go:142-159 | the three kinds in order, and names for those without |
| MimeTree.BuildPartHeader | email/msgbuilder/tree.go:189-274 | the header of a part, or an error if a quote or missing content forbids it |
| MimeTree.BuildTreeRelated | email/msgbuilder/tree.go:112-140 | a body alone or with its related parts, and the boundary drawn |
| MimeTree.BuildTreeBody | email/msgbuilder/tree.go:81-110 | one body or alternatives, and how many boundaries are drawn |
| MimeTree.BuildChoices | email/msgbuilder/tree.go:96-108 | the first HTML body takes the related parts |
| MimeTree.BuildTree | email/msgbuilder/tree.go:41-79 | the whole tree, or an error exactly when there is no body or a placed part cannot be written |
| MimeTree.Cleaver.WalkMime | email/msgcleaver/msgcleaver.go:218-243 | the recursive walk collects the leaves in order, and fails exactly at one without a media type |
| MimeTree.Cleaver.ProcessPart | email/msgcleaver/msgcleaver.go:93-199 | what one leaf is |
| SmtpSession.DataRoundTrip | smtp/smtpserver/smtpserver.go:519-544 | a dot-stuffed body of lines that fit the read buffer is written as it was, and reading stops right behind the terminator (section 4.5.2 of RFC 5321), unless the body is too long, which shows at the first line that does not fit |
| SmtpSession.DataBound | smtp/smtpserver/smtpserver.go:535-539 | whatever comes in, at most MaxSize bytes are written |
| SmtpSession.OverMeans | smtp/smtpserver/smtpserver.go:31-36 | a finished message was given recipients, then lines, then exactly one Close or Cancel, and nothing afterwards |
| SmtpSession.TakeMeans | smtp/smtpserver/smtpserver.go:520-544 | the lines given to a message are those of the input, unstuffed, up to the terminator, the limit, a broken line or a write that fails |
| SmtpSession.CmdMeans | smtp/smtpserver/smtpserver.go:354-573 | what each command may change: which message, recipients, TLS, authentication and input, with the condition for each |
| SmtpSession.DataMeans | smtp/smtpserver/smtpserver.go:510-556 | DATA closes the message exactly behind the terminator; in every other case it is left open, the session ends, and the reply tells why |
| SmtpSession.BodyArrives | smtp/smtpserver/smtpserver.go:510-556 | a dot-stuffed body within the limit arrives whole and the session reads on right behind it, unless the message fails to take a line |
| SmtpReplies.DotsMean | smtp/smtpserver/smtpserver.go:519-534 | the terminator is a line of one dot, and one dot is taken off a line that begins with one |
| SmtpReplies.AddressMeans | smtp/smtpserver/smtpserver.go:450-498 | an address is good if and only if an "@" stands in it, but not in front |
| SmtpReplies.DataReplies | smtp/smtpserver/smtpserver.go:510-556 | when DATA closes the message the code is 250 if and only if it answered that it is closed, 451 for a temporary failure, 550 for a failure, and it goes on only after 250; a message left open is never acknowledged |
| SmtpReplies.DataRefused | smtp/smtpserver/smtpserver.go:510-518 | DATA out of turn changes nothing, with the code for each reason |
| SmtpReplies.RcptReplies | smtp/smtpserver/smtpserver.go:473-508 | RCPT is answered 250 if and only if there is room, the address is good and the message takes it, and otherwise by the code of its reason |
| SmtpReplies.MailReplies | smtp/smtpserver/smtpserver.go:432-471 | so for MAIL |
| SmtpReplies.OtherReplies | smtp/smtpserver/smtpserver.go:354-431 | so for the other commands |
| SmtpSession.DoSound | smtp/smtpserver/smtpserver.go:354-573 | every command keeps the session's invariant, and makes one message if it is a MAIL that opens one, else none |
| SmtpSession.RunSound | smtp/smtpserver/smtpserver.go:285-341 | so does every run, from any sound session |
| SmtpSession.RunsAreSafe | smtp/smtpserver/smtpserver.go:266-341 | over every run as many messages as were opened, each ended by exactly one Close or Cancel with nothing after it and within MaxSize, and recipients are counted only for an open message |
| SmtpReplies.AcknowledgedIsStored | smtp/smtpserver/smtpserver.go:266-341 | over every run the messages that were closed and said so are, in order, exactly those for which DATA was answered 250 |
| SmtpAccess.AccessRemembered | smtp/smtpserver/smtpserver.go:385-431 | over every run that goes on, the session is logged in if and only if an AUTH succeeded and none failed since, and secured if and only if it was from the beginning or a STARTTLS came |
| SmtpAccess.WhoMaySend | smtp/smtpserver/smtpserver.go:432-446 | so MAIL is refused for want of rights if and only if security is asked for and there is none, or a login is and none holds |
| SmtpAccess.LineMeans | smtp/smtpserver/smtpserver.go:519-530 | a line is what ends with the first line end, if that is within 4096 bytes |
| SmtpSession.Session.ServeMail | smtp/smtpserver/smtpserver.go:432-471 | the reply and the whole session are those of MAIL as a function of the session: a message is opened only when none is open and the sender may |
| SmtpSession.Session.ServeRcpt | smtp/smtpserver/smtpserver.go:473-508 | so for RCPT: when a recipient counts, when the message is told, and which end the session |
| SmtpSession.Session.ReadLines | smtp/smtpserver/smtpserver.go:520-544 | the DATA loop writes exactly the unstuffed lines up to the terminator, the limit or a broken line, or stops at a failed write |
| SmtpSession.Session.FinishData | smtp/smtpserver/smtpserver.go:545-556 | how DATA ends: closed and forgotten behind the terminator, or left open while the session ends |
| SmtpSession.Session.ServeData | smtp/smtpserver/smtpserver.go:510-556 | so for DATA, with its loop |
| SmtpSession.Session.ServeRset | smtp/smtpserver/smtpserver.go:558-566 | so for RSET, which gets no reply |
| SmtpSession.Session.ServeCmd | smtp/smtpserver/smtpserver.go:354-573 | so for every command |
| SmtpSession.Session.Leave | smtp/smtpserver/smtpserver.go:277-283 | on the way out an open message is cancelled, and nothing else changes |
| SmtpSession.Serve | smtp/smtpserver/smtpserver.go:266-341 | a session's replies and all the messages it made are those of the run: as many as were opened, all different, each with exactly one Close or Cancel at its end and at most MaxSize bytes |
| ImapConn.FreshKeeps | imap/imapserver/imapserver.go:481-514 | a flush writes all queued EXPUNGEs in order and of the EXISTS only the newest |
| ImapConn.FreshInOrder | imap/imapserver/imapserver.go:481-514 | an EXPUNGE behind the newest EXISTS stays behind it |
| ImapConn.RunSound | imap/imapserver/imapserver.go:709-908 | the invariant holds over every run |
| ImapConn.RunsAreSafe | imap/imapserver/imapserver.go:709-908 | over every run from a new connection: Selected exactly with a mailbox, not authenticated exactly without a session, queued updates only of the mailbox held, and no handler without what it uses |
| ImapConn.SelectQueues | imap/imapserver/imapserver.go:1052-1079 | in every sound state, after a SELECT that opens a mailbox its updates are queued without another IDLE if and only if an IDLE was remembered and no mailbox was held |
| ImapConn.IdleRemembered | imap/imapserver/imapserver.go:812-908 | over every run an IDLE is remembered if and only if there was one since a mailbox was last left |
| ImapConn.IdleOutlivesSelect | imap/imapserver/imapserver.go:812-907 | so over every run: a mailbox selected while none is held has its updates queued if and only if there was an IDLE since the last one was left |
| ImapHistory.LoginRemembered | imap/imapserver/imapserver.go:747-771 | over every run there is a session if and only if a login succeeded |
| ImapHistory.HeldRemembered | imap/imapserver/imapserver.go:812-1079 | over every run a mailbox is held, for reading only or not, if and only if an EXAMINE or a SELECT opened it and none has been left since |
| ImapHistory.LeavingMeans | imap/imapserver/imapserver.go:895-908 | when a mailbox is left, which may be at any time, nothing of it remains, neither updates nor an IDLE nor being read only |
| ImapHistory.ServedNext | imap/imapparser/parser.go:148-166 | so the history alone tells which commands are served next: those of any state, those before login, those after it, and those of a mailbox that is held |
| ImapHistory.CommandFlushes | imap/imapserver/imapserver.go:709-715 | before anything else a command writes every EXPUNGE that waits, in order, and the newest count |
| ImapHistory.NothingLost | imap/imapserver/imapserver.go:481-543 | over every run that does not leave the mailbox, what was written or waits tells just the EXPUNGEs that arrived, in order, and the newest count |
| ImapConn.Conn.WriteUpdates | imap/imapserver/imapserver.go:481-514 | the counting, filtering and writing loops are that flush |
| ImapConn.Conn.DropStale | imap/imapserver/imapserver.go:489-499 | the filter in place keeps all but the older EXISTS |
| ImapConn.Conn.Receive | imap/imapserver/imapserver.go:523-542 | an update is queued only for the mailbox held after IDLE, and written at once to an idling connection |
| ImapConn.Conn.CloseMailbox | imap/imapserver/imapserver.go:895-908 | everything of the mailbox is dropped, unless there is none |
| ImapConn.Conn.CmdSelect | imap/imapserver/imapserver.go:1052-1079 | the old mailbox is closed and the new one held, or none |
| ImapConn.Conn.ServeCmd | imap/imapserver/imapserver.go:709-893 | each command's effect on the connection's state, with the invariant kept |
| ImapConn.User.SendIdleUpdate | imap/imapserver/imapserver.go:516-543 | every connection with that mailbox hears of a change, the sender unless it asks not to, and no other |

## Left out

- Cryptography, base64 of signatures and body hashes, DNS, TLS handshakes, sockets, timeouts, logging, compression and push notifications: the hash is a function of the bytes proved equal.
- Simple canonicalization, DKIM tags other than the h= list and the blanked b=, and the checks of a signature's fields.
- DkimHeaders.Agreement: for 7-bit values without VT, FF, CR and LF; Unicode white space in TrimSpace and case folding of non-ASCII names are not modelled. Its names are those of the joined list; `DkimNames` finds them in the text, for signatures without overlong words.
- DkimNames.ReadNames: the errors of tags other than h=, such as an unknown algorithm, are not modelled; one of them ends the verification.
- DkimHeaders.ReadRelaxedHeader: takes the lines as they are scanned; the scanner's limit of 64 KiB to a line is not modelled.
- BodyReaders.CopyRelaxed: needs a copy buffer of 2 bytes or more, since with one byte the reader may stand still.
- CanonicalKey, the table of header names: easy; keys are taken as they are.
- Readers that answer (0, nil) to a buffer with room, which io.Reader discourages.
- Write errors: writers do not fail, except a message's Write in SMTP.
- readUint64 and its silent cut after 20 digits, and the text of SEARCH keys, dates and RETURN options: SEARCH is modelled from its tokens on.
- Search.ParseRender: for trees the parser supports; KEYWORD, BODY, TEXT and the SENT keys parse and then match nothing, as in the code, and UNDRAFT takes a sequence set, as in the code.
- SQLite: a SELECT over the window is a snapshot, a transaction is atomic, flags are sets, a row number stands for the message ID. COPY and MOVE take their connection from the read-only pool; the model lets them write.
- The wrap of UIDs at 2^32.
- MailStore.Box.CreateMailbox: not for names with a "/" elsewhere than below INBOX, Archive, Sent, Drafts or Trash. For those the loop over the outer names runs the MailboxSequencing statement with a parameter "$id" that it does not have; what comes of it is up to the SQLite package, which is not part of this model. Neither is RenameMailbox.
- MailStore.Box.Deliver: whether the headers are those of a subscription is a parameter of `Assign`; conversations, contacts, labels and rows still being fetched are not modelled.
- MailStore.Box.Move: the exact lists are proved for another mailbox as destination; for a mailbox onto itself only the invariants of every run. The tombstone carries the destination's mod-sequence, so claims about mod-sequences are about messages there to see.
- MemoryStore: its StoreRemove, which reports kept flags as changed, its Search and Fetch, and the flag slices that copies share.
- CSS numbers, unicode ranges, comments and the dispatch to other tokens; the `+` and exponent paths lose or take a rune too many.
- SourceReader.Source.UngetRune: before the first rune was read it makes the line -1; only that much is stated of this case.
- SourceReader.Source.PeekRunes: for at most 1000 runes; the scanner asks for three.
- MIME header text: quoting, parameters, character sets of names, and transfer encodings are taken to be read as they were written; boundaries are known by which draw of the seed they are; a message built again has its seed set anew by the code, and the model keeps it.
- MimeTree.Cleaver.WalkMime: for leaves that do not call themselves multipart; a part without a Content-Disposition header, which the builder never writes, is not classified.
- MIME line breaking: the length test of the line break writer subtracts where it should add, so no bound holds; it is not modelled.
- SmtpSession.Serve: commands come already taken apart, apart from the bytes of DATA: verb lookup, the address patterns, the AUTH exchange and the texts of replies are not modelled. What a message object answers is any function of the calls made to it.
- ImapConn.RunsAreSafe: for data stores that return no mailbox together with an error. Handlers' other output, and the interleaving of connections below the level of one command or one update, are not modelled.
- The delivery pipeline, throttling, greylisting, the honeypot, certificates and the command line programs.
