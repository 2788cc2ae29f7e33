# Proofs about a threshold vault

A Dafny model of the custody side of a bridge: a vault that watches a chain for
deposits, keeps its notes and the tree that proves them, pays out through a quorum of
custodians, and is itself created by a distributed key ceremony. Each module follows one
source file. Operations that change state are methods over the same fields; each is proved
against a specification function, and what the repository relies on is proved about those
functions, for every input, every run or every interleaving.

`dafny verify dfyconfig.toml` checks everything.

## What is modelled

- `Prelude`, `Arith`, `Wire`, `Ordered`: shared types, fixed-width fields, counted lists,
  ordered iteration.
- `Amount`, `FixedPoint`: the 128 by 128 product, the 256 by 128 division, the two roundings,
  and fixed-point values on top of them.
- `Positional`, `Base58`, `Transparent`: changing base, the two base58 loops and the addresses
  built on them.
- `Compact`: the compact block codec. `Disk`: the note store's file, three layouts, and what
  reading undoes of writing; `DiskForm`: which stores a file reads as, and where its fields
  stand; `DiskIo`: the writer and the reader themselves.
- `Notes`: the note store. `Text`, `Memo`, `Shielded`: UTF-8 text, and what the notes of a
  transaction are; `MemoForms`: the memos each reader takes, byte for byte.
- `Scanner`: feeding a block to the two stores. `Retry` and `Transparency`: what a retry sees
  of failed attempts; `Undoing`: what they leave, to the last field. `FeedRuns`: what every
  run of feedings and payments keeps. `Erasure`: whole runs with failures in them. `Observe`:
  one pass over the chain; `Gaps`: which blocks it leaves out; `Readings`: what it
  reads of each. `Arrivals`: what a fed block leaves in a store. `Rescan`: a block fed and later
  scanned. `Whose`: whom each note of a transaction is for, told from the transaction.
- `Watcher`, `Zebra`: turning a chain's deposits into credits, and the snapshot it reads;
  `Crediting`: all that one poll does.
- `Custodian`, `Ed25519Custodian`, `Signing`, `Payout`, `Ed25519Vault`, `Ceremony`: nonces,
  rounds, signatures, thresholds. `Fees`: what a payout spends and costs.
- `DkgNet`, `Interleaving`, `CeremonyRun`: the key ceremony over its relay, in any order;
  `Patience`: with participants giving up; `SealKeys`: what its packages are sealed under.

## What is taken for granted

- A nullifier and a commitment are functions of a note (`NullifierOf`, `CommitmentOf`); a
  note decrypts only from an action that commits to it. Decryption is done before the model
  starts: an action arrives with its note and memo, or without.
- Retry transparency speaks of blocks as a chain has them (`Retry.Sound`): no nullifier is
  revealed by two transactions of a block, and every new note of ours has a nullifier of its
  own. A failed attempt is one in which the node does not list the block, or fails to answer
  for some of its transactions. Of the statements about runs only `Erasure` needs this, and
  it asks it of the chain alone. `Rescan` asks that no note is spent before it is created.
- The witnessing tree is its leaf sequence, the positions it retains and a bounded stack of
  checkpoints; it takes a checkpoint only under an id above its last one's, as the library
  behind it does. Runs start from two pools at one height, and block heights are 32-bit
  numbers. What a library refuses to construct from stored bytes is a parameter
  (`Disk.Checks`).
- The random source hands every nonce out once. A nonce is named by the commitment it makes,
  a share by what went into it; whether the signing library agrees is a parameter
  (`Payout.Library`, `Custodian.Signs`). SHA-256 is a parameter of `Transparent`.
- Thirty-two-byte strings are numbers below 2^256, most significant byte first, except in
  `Compact`: equal and ordered as the byte strings are.
- Opening undoes sealing. The sealing key of two participants comes from their shared secret
  and is the same in both directions. `SealKeys` asks that no two participants draw the same
  sealing key.

## Where the code and its comments part

- `src/payout.rs:286-287` says two passes settle the fee. They do not always:
  `Fees.TwoPassesCanFail` gives a payout, `Fees.NotConvergedExactlyWhen` the condition.
- The watcher filters a poll against earlier polls only (`src/watcher.rs:242`): two deposits
  of one transaction in one batch are both credited. `Watcher.RepeatedExactlyWhenShownTwice`
  says when.
- An application payment with purpose zero can be written and not read
  (`src/memo.rs:129-173`); `Memo.AppPaymentMemo` has both halves.
- Undoing a block cuts held notes by position but does not bring back notes the block spent,
  nor take back nullifiers it showed, nor put back the checkpoint a full stack dropped
  (`src/notes.rs:229-247`). `Undoing.FailureForgetsANote` and
  `Undoing.FailureLosesACheckpoint` give inputs, `Undoing.UndoneExactlyWhenTraceless` the
  condition, `Undoing.WhatAFailureLeaves` what is left. `Transparency.RetryLeavesNoTrace` is
  the sense in which it leaves no trace all the same.
- A block is skipped only when both pools have it (`src/shielded.rs:1076-1082`), so pools
  that stand at different heights can be fed a block twice; `FeedRuns.NeverTwiceExactlyWhenInStep`
  is exact about it.
- `src/notes.rs:229-231` ignores whether the tree took the checkpoint. Between pools at
  different heights it may not have, and then a failed block takes finished ones back with
  it: `Undoing.FailureTakesBackAFinishedBlock` gives two such pools,
  `FeedRuns.FailureUndoesExactlyWhenTaken` the condition.
- `src/shielded.rs:788-797` promises that the trees are fed contiguously from where they
  stopped. The range is also held above the configured first height (`src/shielded.rs:804`,
  and `1052` in `sync_notes`), so a tree that stopped below it is fed after a gap:
  `Gaps.ABlockLeftOut` gives one, `Gaps.ObserveLeavesNoGapExactlyWhen` and
  `Gaps.SyncLeavesNoGapExactlyWhen` the condition.
- Feeding a block classifies it with an empty register of addresses
  (`src/shielded.rs:1119-1127`), though the register is tried first wherever there is one
  (`src/shielded.rs:483-487`). A note without a memo at an issued address is credited when its
  block is scanned and refused when it is fed: `Rescan.RegisterSpeaksAlone`, and
  `Rescan.AddressedBlockIsNeverFed` for the block; `Rescan.JudgedAlikeExactlyWhen` has the
  condition.
- `src/memo.rs:16-19` promises a `MemoError` for whatever is not exactly right. Text is sliced
  by byte (`src/memo.rs:372`), and a slice that ends inside a character panics:
  `Memo.OneMemoPanics` gives a memo, `Memo.PanicsExactlyWhen` and
  `Memo.MemoPanicsExactlyWhen` the condition.
- `src/memo.rs:351-353` promises that a text memo tolerates case and surrounding white space
  and nothing else. Reading two digits as a number also takes a plus sign for the first
  (`src/memo.rs:372`): `Memo.PlusIsTolerated` gives a text, `Memo.StrictExactlyWithoutPlus`
  the condition.
- The comment at `src/dkg_net.rs:60-61` says a fixed nonce is safe because a sealing key
  belongs to one sender and recipient and is used once. The key is the pair's, so what two
  participants send each other is sealed under one key and one nonce:
  `SealKeys.TwoParticipants` and `SealKeys.AKeyUsedTwice` give ceremonies,
  `SealKeys.SameSealExactlyWhenSamePair` and `SealKeys.UsedOnceExactlyWhenOneHasPosted` the
  conditions, and `SealKeys.FinishedUsedOnceExactlyWhenAlone` says no accepted shape meets
  them.

## Model

| member | source | states |
|---|---|---|
| `Amount.MulFull` | src/amount.rs:226-246 | The two words are exactly the 256-bit product: hi * 2^128 + lo = a * b, for all words, through the manual carries. |
| `Amount.DivRem` | src/amount.rs:257-288 | The shift-subtract loop, lost top bit and wrapping subtraction included, gives q and rem with hi * 2^128 + lo = q * den + rem and rem < den, and nothing exactly when den is 0 or the quotient needs more than 128 bits. |
| `Amount.Signed` | src/amount.rs:180-193 | Putting the sign back: magnitude 2^127 is a value when negative and none when positive. |
| `Amount.TruncDivIsTruncation` | src/amount.rs:165-171 | The quotient the specification names is truncation toward zero: the only one whose remainder is smaller than the divisor and not of the opposite sign. |
| `Amount.MulDiv` | src/amount.rs:172-193 | For all i128 inputs the exact quotient a * b / den truncated toward zero; None exactly when den is 0 or that quotient is outside i128. |
| `Amount.MulDivCeil` | src/amount.rs:201-223 | The same, rounded away from zero, with the same failures on the rounded value. |
| `Amount.RoundingIsSignSymmetric` | src/amount.rs:160-224 | Both roundings commute with negating either operand; the one asymmetry of the range is the result -2^127, which has no positive twin. |
| `Amount.CeilExceedsFloorExactlyWhenInexact` | src/amount.rs:196-224 | The two roundings differ in magnitude by one exactly when den does not divide the product, and never otherwise. |
| `Amount.DivThenMulLoss` | src/amount.rs:92-105 | For positive x and y, dividing by y and multiplying back never exceeds x and loses at most ceil(y / WAD) raw units. |
| `Amount.ChainedNeverExceedsOneStep` | src/amount.rs:107-118 | For non-negative inputs dividing first and multiplying after never beats the one-step form. |
| `FixedPoint.Fixed.Mul` | src/amount.rs:92-95 | The truncated product over WAD, defined exactly when it is an i128. |
| `FixedPoint.Fixed.Div` | src/amount.rs:97-105 | The truncated quotient scaled by WAD, defined exactly when the divisor is not zero and it is an i128. |
| `FixedPoint.Fixed.MulDiv` | src/amount.rs:107-118 | One exact product, one truncation. |
| `FixedPoint.Fixed.MulDivCeil` | src/amount.rs:120-125 | One exact product, one rounding away from zero. |
| `Base58.Accumulate` | src/base58.rs:15-24 | The inner loop both directions share: the accumulator becomes itself times the other base plus the new digit, in place, with the carry pushed. |
| `Positional.MulAddIsExact` | src/base58.rs:32-42 | On canonical digits that step is exact arithmetic on the number they spell, so the top digit is never zero. |
| `Positional.ConvertInverts` | src/base58.rs:9-52 | Changing base and back, leading zeros kept one for one, is the identity on every digit string. |
| `Base58.Base58Encode` | src/base58.rs:30-52 | The method computes the base change into base 58, written in the alphabet. |
| `Base58.Base58Decode` | src/base58.rs:9-28 | The method computes the inverse, and refuses at the first foreign character. |
| `Base58.DecodeEncode` | src/base58.rs:9-52 | decode(encode(b)) = b for every byte string. |
| `Base58.EncodeDecode` | src/base58.rs:9-52 | decode fails exactly on strings with a character outside the alphabet, and every string it accepts re-encodes to itself. |
| `Transparent.EncodeTransparent` | src/transparent.rs:77-94 | The method writes prefix, hash and four checksum bytes of the address in base58. |
| `Transparent.TransparentAddress` | src/payout.rs:609-632 | The method reads them back, checking length, checksum and the network's two prefixes in that order. |
| `Transparent.ParseEncode` | src/transparent.rs:77-94 | What is written for a network is read back on that network as the same address. |
| `Transparent.EncodeParse` | src/payout.rs:609-632 | Every accepted string is the one string its address is written as. |
| `Transparent.AcceptedExactlyWhen` | src/payout.rs:609-632 | A string is an address exactly when it spells in base58 the two bytes of its kind on the network, the twenty of its hash, and the first four of the hash of the hash of those. |
| `Transparent.WrittenAs` | src/transparent.rs:77-94 | And an address is written so. |
| `Transparent.NetworksDoNotMix` | src/payout.rs:618-631 | No string is an address on both networks, and an address of one is refused on the other. |
| `Compact.Encode` | src/compact.rs:116-136 | The nested loops write exactly the layout of the block. |
| `Compact.Decode` | src/compact.rs:138-179 | The cursor loops read exactly that layout, and refuse what is cut short, mis-tagged or followed by anything. |
| `Compact.EncodingIsABijection` | src/compact.rs:116-179 | decode(encode(b)) = Some(b) exactly when b's counts fit 32 bits, and decode(x) = Some(b) exactly when b fits and x = encode(b). |
| `Compact.OutputLayout` | src/compact.rs:116-136 | Where each field of an output stands. |
| `Compact.TxLayout` | src/compact.rs:116-136 | And of a transaction, the outputs of each pool counted. |
| `Compact.BlockLayout` | src/compact.rs:116-136 | And of a block, after its name. |
| `Notes.NoteStore.Append` | src/notes.rs:192-206 | The leaf is appended and counted unless the tree is full, and marked and its position returned when ours. |
| `Notes.NoteStore.Hold` | src/notes.rs:208-220 | A note is filed under its position. |
| `Notes.NoteStore.BeginBlock` | src/notes.rs:229-231 | A checkpoint at the current size under the height cut to 32 bits, the oldest dropped past one hundred; a tree whose last checkpoint has that id or a later one takes none, and the code does not look. |
| `Notes.NoteStore.FinishBlock` | src/notes.rs:175-177 | The store says it is complete to the height. |
| `Notes.NoteStore.Rewind` | src/notes.rs:234-247 | Back to the last checkpoint, which is removed, and held notes past the tree's end with it; notes in flight and nullifiers seen spent are not touched. |
| `Notes.NoteStore.SpendNullifier` | src/notes.rs:315-342 | A note in flight with the nullifier is found before a held one; the entry at that note's own position is forgotten, and the nullifier is kept as spent exactly when an entry went. |
| `Notes.NoteStore.HoldsNullifier` | src/notes.rs:344-358 | True exactly when the nullifier was seen spent or belongs to a note held or in flight. |
| `Notes.NoteStore.Spend` | src/notes.rs:360-365 | A held note moves to the notes in flight; an unheld position changes nothing. |
| `Notes.NoteStore.Select` | src/notes.rs:290-310 | The method answers with the specified selection, or with what is held and what was needed. |
| `Notes.TakeUntil` | src/notes.rs:297-304 | The selecting loop stops at the first prefix whose saturating total covers the amount, or at the end. |
| `Notes.AppendKeepsValid` | src/notes.rs:192-220 | Appending and holding keep the store consistent: the counter is the number of leaves, checkpoints lie within the tree in order, every held note is filed under a position the tree retains. |
| `Notes.BeginKeepsValid` | src/notes.rs:229-231 | Opening a block keeps that. |
| `Notes.RewindKeepsValid` | src/notes.rs:234-247 | Rewinding keeps that. |
| `Notes.NullifierKeepsValid` | src/notes.rs:315-342 | Showing a nullifier keeps that. |
| `Notes.SpendKeepsValid` | src/notes.rs:360-365 | Sending a note keeps that. |
| `Notes.SelectionCovers` | src/notes.rs:290-310 | The selection consists of held notes, covers the amount, would not without its last note, and fails exactly when everything held falls short. |
| `Notes.SelectionIsFewest` | src/notes.rs:285-310 | No set of held notes that covers the amount has fewer notes than the selection. |
| `Notes.SelectionGrowsByExtension` | src/notes.rs:290-310 | The selection for an amount is a prefix of the selection for any larger one that can be covered. |
| `Notes.SelectionInTurn` | src/notes.rs:290-303 | The selection is in order of value, the earlier of equals first, and every note left held comes after all of it. |
| `Notes.BeginTakes` | src/notes.rs:229-231 | Opening a block changes nothing but the checkpoints: one at the tree's size under the height cut to 32 bits, above the last one's only, for which the oldest of a hundred goes. |
| `Disk.RoundTrip` | src/notes.rs:718-843 | decode(encode(s)) = s for every store whose numbers fit, bridges, checkpoints, marks, notes and nullifiers included; bytes after the spent section are refused. |
| `DiskIo.Encode` | src/notes.rs:718-765 | The growing buffer, field by field and loop by loop over the tree's parts, the two maps of notes and the spent set, ends as exactly the encoding. |
| `DiskIo.Decode` | src/notes.rs:768-843 | The moving cursor, each count followed by that many reads inserted one by one, the two later sections read only if anything is left, returns exactly what the specified reader returns, and nothing exactly when it refuses. |
| `DiskIo.Writer.Bridge` | src/notes.rs:585-608 | A bridge: prior position, tracked addresses, ommers and frontier are appended in order and nothing already written changes. |
| `DiskIo.Reader.Bridge` | src/notes.rs:643-671 | The same read back at the cursor, which ends just past it. |
| `DiskIo.Reader.Held` | src/notes.rs:690-714 | A note read at the cursor, refused when the version byte is unknown or a part is not accepted. |
| `Disk.RoundTripExactlyWhenKeyed` | src/notes.rs:718-843 | Among the stores that fit, the round trip holds exactly of those whose notes are filed under their own positions. |
| `DiskForm.ReadableExactlyWhen` | src/notes.rs:718-843 | The stores that some file reads as are exactly those whose numbers fit their fields, whose parts the libraries accept and whose notes are each filed under their own position. |
| `DiskForm.HeldLayout` | src/notes.rs:673-688 | A note is 164 bytes, each field in its place. |
| `DiskForm.FileLayout` | src/notes.rs:718-725 | The file's name, the number of leaves and the height, a nought where there is none, then the tree and the three lists. |
| `DiskForm.NotesLayout` | src/notes.rs:753-765 | The notes of a map, counted, in order of position. |
| `DiskForm.BridgeLayout` | src/notes.rs:596-608 | A bridge, field by field. |
| `DiskForm.MarkLayout` | src/notes.rs:739-750 | A checkpoint of the tree, field by field. |
| `DiskForm.PartsLayout` | src/notes.rs:725-750 | The tree, part by part. |
| `DiskForm.EntryLayout` | src/notes.rs:581-584 | An address, a mark and an ommer. |
| `Disk.DecodedIsKeyed` | src/notes.rs:803-823 | Whatever the bytes, a store that decodes has every note under its own position. |
| `Disk.OldestLayout` | src/notes.rs:808-823 | A file that ends after the held notes reads with nothing in flight and nothing spent. |
| `Disk.OlderLayout` | src/notes.rs:811-823 | A file that ends after the notes in flight reads with nothing spent. |
| `Disk.BridgeReads` | src/notes.rs:596-671 | A bridge's bytes, whatever follows them, are read as that bridge and no further: prior position, tracked addresses, ommers and frontier. |
| `Disk.PartsRead` | src/notes.rs:723-802 | The same of the whole tree: bridges, the one under construction, saved marks, checkpoints. |
| `Disk.HeldReads` | src/notes.rs:674-714 | The same of a note, both note versions. |
| `Memo.OneReading` | src/memo.rs:123-335 | No memo reads as two things among anchor, publication, application payment, forced frame and deposit. |
| `Memo.DepositMemo` | src/memo.rs:286-322 | What is written for an account is read back, and a full-length memo that is not text names an account exactly when it is the one written for it. |
| `Memo.ReadText` | src/memo.rs:354-375 | The steps of `decode_text` on any text: trimmed of Unicode white space, tag, a version digit cut off at a character boundary, colon, sixty-four bytes, the loop over pairs that panics where a slice ends inside a character, each refusal in its place. |
| `Memo.WriteText` | src/memo.rs:337-347 | The loop of `encode_text` writes the prefix and two lower-case digits for each byte. |
| `Memo.TextMeans` | src/memo.rs:349-375 | Text names an account exactly when, trimmed, it is the prefix and thirty-two pairs that spell the account's bytes. |
| `Memo.PanicsExactlyWhen` | src/memo.rs:368-373 | Reading text panics exactly when, trimmed, it is the prefix and sixty-four bytes in which a pair ends inside a character before any pair is read that is no two digits. |
| `Memo.MemoPanicsExactlyWhen` | src/memo.rs:298-309 | And reading a memo exactly when it is such text, valid UTF-8, up to its zero padding. |
| `Memo.OneMemoPanics` | src/memo.rs:371-373 | A concrete memo, at any length of padding. |
| `Text.BoundaryExactlyWhenText` | src/memo.rs:356-372 | Text may be cut exactly where both parts are valid UTF-8, so the slices the reader takes are text or a panic. |
| `Text.TrimSplits` | src/memo.rs:355 | Trimming takes whole white-space characters off both ends and leaves none there. |
| `Text.TrimIsText` | src/memo.rs:355 | What is left of text is text. |
| `Text.CharExactlyWhen` | src/memo.rs:303 | The bytes at the front are a character exactly when they are the UTF-8 of its code point, for every code point but the surrogates. |
| `Text.SpaceExactlyWhen` | src/memo.rs:355 | And white space exactly when that code point is one of Unicode's White_Space. |
| `Memo.TextRoundTrip` | src/memo.rs:337-375 | What is written as text is read back, with any Unicode white space around it. |
| `Memo.TypedMemo` | src/memo.rs:298-309 | Typed into a field padded with zeros, it names the account as well. |
| `Memo.StrictExactlyWithoutPlus` | src/memo.rs:349-375 | Text that is read is, but for case and white space around it, the text that is written exactly when there is no plus sign in it: nothing else is tolerated but that. |
| `Memo.PlusForZero` | src/memo.rs:371-373 | For every account and every byte of it below sixteen, a plus sign in place of its first digit reads the same. |
| `Memo.PlusIsTolerated` | src/memo.rs:349-375 | So a text no writer writes names an account: a concrete one. |
| `Memo.PublicationMemo` | src/memo.rs:234-262 | The same of publications. |
| `Memo.ForcedMemo` | src/memo.rs:176-205 | A frame is written exactly when it is 1 to 506 bytes long, then read back; a full-length memo that reads as a frame is the one written for it. |
| `Memo.AppPaymentMemo` | src/memo.rs:129-173 | An application payment is written exactly when neither field is zero and then read back exactly when its purpose is not zero: the writer takes a zero purpose, the reader refuses it. |
| `MemoForms.AnchorExactlyWhen` | src/memo.rs:224-229 | At every length: an anchor is its three letters, the version and forty-four bytes, then nothing but zeros. |
| `MemoForms.PublicationExactlyWhen` | src/memo.rs:248-262 | At every length: a publication is its letters, the version and the digest, then zeros. |
| `MemoForms.DepositExactlyWhen` | src/memo.rs:310-322 | At every length: a memo that is no text names an account exactly when it is the letters, the version and the account, then zeros. |
| `MemoForms.DepositErrors` | src/memo.rs:310-322 | Which error it is otherwise: no tag or too short, the version with its number, or what follows. |
| `MemoForms.TextErrors` | src/memo.rs:354-375 | Which error it is of text: no tag with a digit, the version with its number, or malformed when it neither names anybody nor panics. |
| `MemoForms.TextMemo` | src/memo.rs:298-307 | A memo that starts as text is text up to its first zero: malformed if that is not UTF-8, with trailing bytes if anything follows the zero, and else what the text is. |
| `MemoForms.DigitExactlyWhen` | src/memo.rs:372 | The digits, in either case. |
| `MemoForms.PairExactlyWhen` | src/memo.rs:372 | Two characters are a byte as two digits or as a plus sign and a digit. |
| `MemoForms.CaseDoesNotMatter` | src/memo.rs:351-353 | The case of the digits makes no difference to what they spell. |
| `MemoForms.FrameExactlyWhen` | src/memo.rs:190-205 | At every length: a forced frame is its letters, the version, its length, not nought, and the frame, then zeros. |
| `MemoForms.PaymentExactlyWhen` | src/memo.rs:144-173 | At every length: an application payment is its letters, the version, a purpose, a reference and a recipient, none of them nought, then zeros. |
| `MemoForms.PaymentErrors` | src/memo.rs:144-173 | Which error it is otherwise, the first that applies: tag, length, version, purpose, what follows, a nought. |
| `Shielded.Take` | src/shielded.rs:266-426 | The branches of `take` in order, and what each pushes where. |
| `Shielded.Scan` | src/shielded.rs:208-264 | The actions taken one after another with their output indices; the first refusal stops the scan. |
| `Shielded.ClassifyAddressed` | src/shielded.rs:491-548 | The loop gives the deposits in action order, or the amount of the first action nobody can be found for. |
| `Shielded.ClassificationConservesValue` | src/shielded.rs:491-548 | On success the credited total is the total of our notes less exactly the stamps, the application payments, the change and the top-ups. |
| `Shielded.OneClassEach` | src/shielded.rs:491-548 | Every note of ours is exactly one of stamp, application payment, change, top-up, deposit, or unattributable. |
| `Shielded.ClassificationFailsOnStrays` | src/shielded.rs:499-545 | Classification fails exactly when some action is unattributable, with the first one's amount. |
| `Shielded.DepositsNameSomebody` | src/shielded.rs:505-545 | A deposit never names the all-zero account and carries its own transaction and height. |
| `Shielded.ApplicationTagNeverDeposits` | src/shielded.rs:288-345 | A memo with the application tag never becomes a deposit, strict or lenient, whatever is attributed and whatever address it arrived at. |
| `Shielded.MalformedApplicationPaymentFails` | src/shielded.rs:325-345 | A malformed one makes a strict scan fail, and after a lenient scan makes every classification of the transaction fail. |
| `Scanner.FeedBlock` | src/shielded.rs:1064-1155 | The whole of `feed_block` on the two stores: done, begun, fed, then finished or rewound. |
| `Scanner.FeedTx` | src/shielded.rs:1091-1137 | One transaction: recognise our spends first, then apply them, classify, and only then append and hold. |
| `Retry.SpendPoolIsPurge` | src/notes.rs:315-342 | Showing a transaction's nullifiers one by one forgets exactly the known notes revealed, whatever their order. |
| `Retry.SameRecognised` | src/shielded.rs:1102-1105 | At each transaction of a retried block the same reveals are recognised as ours as at first. |
| `Transparency.FailureKeepsLevel` | src/shielded.rs:1149-1153 | Once the block is begun again, what a failed attempt has left is nothing but nullifiers the block spends anyway; until then a stack of a hundred checkpoints is one shorter as well. |
| `Transparency.RetryLeavesNoTrace` | src/shielded.rs:1064-1155 | However many attempts at a block fail, and wherever, the next complete answer gives the same deposits and forced frames or the same refusal as a first attempt, and on success the same stores to the last field. |
| `Undoing.WhatAFailureLeaves` | src/shielded.rs:1083-1155 | After a failing feeding each store is, to the last field, the store before it with the nullifiers the transactions reached have shown moved from its notes to the spent set, and the oldest of a hundred checkpoints gone. |
| `Undoing.UndoneExactlyWhenTraceless` | src/shielded.rs:1083-1155 | A failing feeding gives both stores back as they were exactly when no transaction it reached reveals a nullifier its store knew and neither stack of checkpoints was full. |
| `Undoing.FailureForgetsANote` | src/notes.rs:234-247 | One transaction that spends a held note and one that cannot be fetched: the stores end without the note and with its nullifier spent, whatever the note and the keys. |
| `Undoing.FailureLosesACheckpoint` | src/notes.rs:229-247 | A hundred checkpoints and a block that cannot be fetched: one is gone. |
| `FeedRuns.EveryRun` | src/shielded.rs:1064-1155 | From pools that stand together, over any run of feedings and sendings, failed or not, each tree is its start followed by every finished block's commitments in order, once each; the counter is the number of leaves; every note stands where its own commitment does; nothing once ours is forgotten. |
| `FeedRuns.HeightsOnlyRise` | src/shielded.rs:1076-1082 | Pools that start together stay in step, and the heights of finished blocks rise strictly, ending at the height the trees report. |
| `FeedRuns.NeverTwiceExactlyWhenInStep` | src/shielded.rs:1076-1082 | No height is fed to a pool that already has it, whatever height is asked for, exactly when both pools stand at the same height. |
| `FeedRuns.FeedingOnePool` | src/shielded.rs:1083-1155 | A failing feeding restores the leaves and the height exactly; a finished one appends exactly the block's commitments; for every pool whose tree takes the block's checkpoint. |
| `Arrivals.FedBlockStands` | src/shielded.rs:1083-1147 | What a block fed leaves, told from the block: complete to its height, every commitment a leaf in its place, every note of ours filed there with the block and the transaction it came in unless its nullifier has been seen spent; what was held or in flight goes only so, only nullifiers the block shows are newly seen, and nothing else is held. |
| `FeedRuns.UndoUnderway` | src/notes.rs:234-247 | A rewind part-way through a block takes every leaf of it back and forgets no nullifier that was ours. |
| `FeedRuns.UndoneExactlyWhenTaken` | src/notes.rs:229-247 | A rewind part-way through a block gives the leaves back as they were exactly when the tree took the block's checkpoint or had not grown since its last one; otherwise it goes back into finished blocks. |
| `FeedRuns.FailureUndoesExactlyWhenTaken` | src/shielded.rs:1083-1155 | The same of a whole feeding that fails, whatever it failed at. |
| `Undoing.FailureTakesBackAFinishedBlock` | src/notes.rs:229-247 | Two consistent pools at different heights and a block whose transactions cannot be listed: the tree refuses the checkpoint, and the rewind takes the leaf of a block the store still says it has. |
| `FeedRuns.TakesNext` | src/shielded.rs:1076-1086 | Pools that stand together take the checkpoint of every block they do not have, so the exception is only for pools at different heights. |
| `FeedRuns.RunTogether` | src/shielded.rs:1064-1155 | Pools that stand together still do after any run. |
| `FeedRuns.OwnSpendsStayOurs` | src/shielded.rs:833-847 | A nullifier recognised as ours when its block was fed is recognised by every later reader, after any run. |
| `FeedRuns.SoundAfterBlock` | src/notes.rs:192-342 | What retry transparency asks of a store holds again after every sound block. |
| `FeedRuns.SoundAfterSending` | src/notes.rs:360-365 | And after every note sent. |
| `Erasure.FailuresErased` | src/shielded.rs:1064-1155 | A run of blocks, each fed until the node answers in full, with any failed attempts before that answer and any notes sent at any point: it tells of its blocks what it would have told, and leaves the stores it would have left, had no attempt been made that failed. Nothing is asked of the stores after the start but what the chain guarantees of the blocks. |
| `Erasure.StageErased` | src/shielded.rs:1064-1155 | The same of one block of such a run, from any state the run can be in. |
| `Erasure.SoundAfterPaying` | src/notes.rs:360-365 | Sending a note, whenever, changes nothing about which nullifiers a block to come will leave spent, nor that it is sound for the store. |
| `Erasure.PoolReady` | src/notes.rs:192-365 | After each block a pool is ready again: no two notes share a nullifier, none is both spent and unspent, and every nullifier known is one the chain created. |
| `Rescan.RunAddsCreated` | src/notes.rs:192-365 | Over any run nothing becomes ours but the notes created by the blocks that were offered. |
| `Rescan.RecognisedAlike` | src/shielded.rs:833-847 | A nullifier a finished block reveals is recognised as ours after any later run exactly when it was recognised while the block was fed. |
| `Rescan.ScannedAsFed` | src/shielded.rs:820-860 | A block finished by feeding it and scanned again after any run, under the same attributions, tells the same deposits and forced frames, as long as the register of addresses agrees with what each action was taken for while it was fed. |
| `Rescan.JudgedAlikeExactlyWhen` | src/shielded.rs:483-548 | The classifier judges an action alike with the register and without it exactly when it has no money of ours at an issued address, or whoever the memo, the change rule or the attribution names is whom the address was handed to. |
| `Rescan.NoneIssuedAgrees` | src/shielded.rs:820-860 | The register agrees with every block none of whose notes came to an issued address. |
| `Rescan.RegisterSpeaksAlone` | src/shielded.rs:1119-1127 | A note without a memo at an issued address: scanning credits it, feeding refuses it. |
| `Rescan.AddressedBlockIsNeverFed` | src/shielded.rs:1083-1155 | So a block of that one transaction is refused by every feeding at a height the trees have not reached, while its scan credits the note. |
| `Whose.MemoNames` | src/shielded.rs:392-413 | A note whose memo names an account is kept with that account and makes a deposit of its value to it, whatever is attributed and however strict the scan. |
| `Whose.FrameNames` | src/shielded.rs:361-391 | A note with a forced frame whose signer can be told is kept with the signer and the frame, and makes a deposit to the signer and a sighting of the frame. |
| `Whose.NobodyNamed` | src/shielded.rs:392-420 | Money that names nobody goes to whom its transaction is attributed; without that a lenient scan keeps it for nobody and a strict one stops with its value. |
| `Whose.NotMoney` | src/shielded.rs:286-360 | A foreign note, a stamp and an application payment make no deposit, each kept as what it is, the payment with its place; a malformed one stops a strict scan. |
| `Whose.AttributedExactlyWhenNobodyNamed` | src/shielded.rs:392-413 | An attribution makes a difference exactly to money whose memo names nobody. |
| `Whose.ScanFinds` | src/shielded.rs:224-420 | What a scan finds, told from the raw actions: the deposits, the frames and the application payments, each in the order of the actions and none besides. |
| `Whose.ClassifiesWhom` | src/shielded.rs:491-548 | Classification, told from the raw actions: it stops with the value of the first note nobody can be found for, exactly when there is one, and else credits whom each is for, by issued address, memo, change or attribution. |
| `Whose.FeedingTellsWhom` | src/shielded.rs:1091-1128 | A transaction fed: where any action reveals a nullifier that its own pool has seen spent or that is of a note held or in flight, a note without a name is change, neither an error nor a credit; in every other the first that is not attributed is the error. |
| `Whose.ScanningTellsWhom` | src/shielded.rs:820-860 | The same of a transaction scanned, with the register of addresses, and no own spends without stores. |
| `Whose.OtherAnswers` | src/shielded.rs:1091-1100 | A transaction that cannot be fetched is an error; one that cannot be read tells nothing. |
| `Whose.WrittenMemoCredits` | src/shielded.rs:1119-1127 | The memo written for an account, in bytes or as text with any padding, credits the account when its block is fed. |
| `Whose.ChangeIsKept` | src/shielded.rs:1104-1107 | A transaction that spends a note of ours, without a malformed application payment, is fed, and only notes that name somebody are credited. |
| `Observe.ObserveChain` | src/shielded.rs:776-865 | The method feeds the range the trees want, scans the rest of the deposit range, and answers with the snapshot of what it read. |
| `Observe.EachHeightReadOnce` | src/shielded.rs:781-862 | In a pass that succeeds every height of the deposit range is read exactly once, fed or scanned; nothing is read twice; the tip reported is the end of the range and never past the chain's. |
| `Observe.PassReaches` | src/shielded.rs:781-815 | Which blocks those are, in numbers: from the larger of the height asked for and the first configured, as many as a batch holds, to the tip; and the blocks the trees want, as many again, outside the lag. |
| `Readings.EachReadingIs` | src/shielded.rs:807-862 | Every reading of a pass is of the block at its height: of feeding it to the stores as the blocks before it left them, or of scanning it with the stores as all the feeding left them. |
| `Readings.BlockFed` | src/shielded.rs:1072-1155 | A block fed tells what its transactions tell one after another, or stops at the first that fails with its error; one that cannot be listed is an error, one the trees have tells nothing. |
| `Readings.BlockScanned` | src/shielded.rs:816-860 | The same of a block scanned, with the same stores for all its transactions. |
| `Observe.NoDepositTwice` | src/shielded.rs:788-862 | At every height read the snapshot shows exactly the deposits of the one reading of that block. |
| `Observe.TreesFed` | src/shielded.rs:798-815 | After such a pass each tree is what it was followed by the commitments of a run of blocks in order, none twice: from the height after the one the trees stopped at, or from the configured first height if that is larger, up to the lagged ceiling or as far as the batch bound reaches. |
| `Observe.SyncNotes` | src/shielded.rs:1044-1061 | The trees alone: the method refines its specification, and what it reports is never past what was asked, and short of it only by the batch bound. |
| `Gaps.ObserveLeavesNoGapExactlyWhen` | src/shielded.rs:788-815 | A pass starts at the block after the last one fed, and leaves each tree as that followed by every block since, exactly when the configured first height is not past that block; when it is, the tree is whole exactly when the blocks left out commit to nothing, as long as it is not full. |
| `Gaps.SyncLeavesNoGapExactlyWhen` | src/shielded.rs:1044-1061 | The same of feeding the trees alone. |
| `Gaps.ABlockLeftOut` | src/shielded.rs:798-815 | Empty trees at height 0, a first height of 5 and one commitment in block 3: both ways of feeding succeed, say the trees are complete to 5, and the commitment is in neither. |
| `Observe.ScanTx` | src/shielded.rs:820-860 | A transaction read without feeding it: the stores still tell our own spends and the address register names depositors. |
| `Watcher.DepositWatcher.Poll` | src/watcher.rs:225-292 | The method computes the specified poll, and an error changes nothing. |
| `Watcher.DepositWatcher.RewindTo` | src/watcher.rs:200-204 | The scan goes back, never forward, and what was credited stays credited. |
| `Watcher.PollEffect` | src/watcher.rs:225-292 | A poll's credits are its deposits numbered from where it stood; the state moves by exactly those. |
| `Watcher.CreditsAreConfirmed` | src/watcher.rs:213-291 | Every credit is, field by field, for a deposit that was wanted and buried deep enough. |
| `Crediting.EveryPoll` | src/watcher.rs:213-291 | All a poll does: nothing unless the height buried under the confirmations, one at least, is past what was scanned. Else every deposit due up to there, and no other, in order of height and txid and as shown within one, is credited field by field, after the balance and one attestation for each other asset in order, all at that height; or nothing happens if the chain cannot say them. |
| `Crediting.EveryDueIsCredited` | src/watcher.rs:228-290 | After a poll that succeeds every deposit due at a height not yet scanned and buried deep enough has its credit. |
| `Crediting.SafeIsDeepest` | src/watcher.rs:213-217 | The safe height is the tip and one less the confirmations, one at least, and none when that is below one. |
| `Watcher.IndicesAreDense` | src/watcher.rs:277-288 | Over any run of polls and rewinds against arbitrary views the k-th credit has index next + k. |
| `Watcher.NoTxidCreditedByTwoPolls` | src/watcher.rs:241-244 | No txid is credited by two polls of a run, nor one credited before it. |
| `Watcher.RepeatedExactlyWhenShownTwice` | src/watcher.rs:239-252 | Inside one poll no txid is credited twice exactly when the view shows none twice among the wanted deposits. |
| `Watcher.OneTxidCreditedTwice` | src/watcher.rs:242 | The filter looks at earlier polls only: a concrete poll credits one txid twice. |
| `Watcher.RunIsOnePoll` | src/watcher.rs:225-292 | On a settled chain many polls at rising tips say what one poll at the last tip would. |
| `Watcher.CadenceDoesNotMatter` | src/watcher.rs:213-292 | Two rising sequences of tips that end at one safe height emit the same credits in the same order with the same indices, and end in equal states. |
| `Watcher.Audit` | src/watcher.rs:300-318 | Silent exactly when every credited txid is still shown in the range; otherwise names the first that is not. |
| `Zebra.New` | src/zebra.rs:577-587 | Every deposit is filed under its own height, in the order given. |
| `Zebra.FiledInOrder` | src/zebra.rs:577-587 | What is filed under a height is exactly what came with it, in the order it came. |
| `Zebra.Observed.BalanceAt` | src/zebra.rs:620-634 | The running sum in height order, absent past the tip or when a partial sum leaves the range. |
| `Zebra.BalanceExactlyWhen` | src/zebra.rs:620-634 | A balance is answered exactly up to the tip, the tip included, as long as no running sum in height order leaves the range, and is that sum. |
| `Zebra.AttestationCoversCredits` | src/watcher.rs:260-291 | Polling a snapshot without negative amounts or other assets, every non-empty batch starts with its one attestation, for at least the sum of the credits that follow. |
| `Custodian.Participant.Round1` | src/custodian.rs:85-116 | Expired requests are dropped, an open id is refused, and otherwise one nonce per action is committed and kept with the message and the randomizers. |
| `Custodian.Participant.Round2` | src/custodian.rs:120-144 | The request is taken whatever follows; shape and message are checked before any nonce is used. |
| `Custodian.Participant.DropExpired` | src/custodian.rs:148-151 | Exactly the requests opened less than the time to live ago are kept. |
| `Custodian.SignAll` | src/custodian.rs:138-143 | The signing loop takes each session out of its slot and stops at the first refusal. |
| `Custodian.SignEachIs` | src/custodian.rs:138-143 | With no session taken the calls are one per package in order, each with the nonce and the randomizer at its own index. |
| `Custodian.StepKeeps` | src/custodian.rs:85-151 | Every operation keeps the discipline: no session of an open request taken, no nonce open twice or open and signed, every nonce bound to the purpose it was committed for. |
| `Custodian.EachNonceSignsOnce` | src/custodian.rs:85-151 | Over every sequence of rounds and expiries each nonce is committed for one purpose and goes into at most one signing, of the message fixed then and under the randomizer at its own index. |
| `Custodian.RunRecords` | src/custodian.rs:85-144 | What the run is said to have committed and signed is what the rounds answered. |
| `Custodian.RoundTwoConsumes` | src/custodian.rs:120-144 | In every reachable state round two consumes the request it names, however it ends, and says there is none exactly when there is none: the branch for a session already taken is unreachable. |
| `Custodian.RoundOneOpens` | src/custodian.rs:85-116 | Round one is refused exactly when a request of that id was opened less than three hundred seconds ago; else it opens one at its own clock with the message, the randomizers and the nonces it answers with, and of the others it keeps just those as young. |
| `Custodian.OpenExactlyWhileYoung` | src/custodian.rs:85-151 | In every run an open request that nothing names any more stays open, as it was, exactly while every clock shown is less than three hundred seconds past its opening. |
| `Ed25519Custodian.Participant.Round1` | src/custodian.rs:315-337 | The Ed25519 participant is the participant above with one action, in round one. |
| `Ed25519Custodian.Participant.Round2` | src/custodian.rs:340-354 | And in round two. |
| `Ed25519Custodian.Participant.DropExpired` | src/custodian.rs:356-359 | And in expiring. |
| `Ed25519Vault.LocalEd25519Quorum.Round1` | src/signing.rs:475-488 | The Ed25519 quorum's round one is the quorum's above with one action. |
| `Ed25519Vault.LocalEd25519Quorum.Round2` | src/signing.rs:490-505 | And its round two. |
| `Ed25519Vault.Gather` | src/ed25519.rs:350-354 | Exactly the chosen custodians' commitments are handed to the aggregator, each under its own identifier. |
| `Ed25519Vault.SignWith` | src/ed25519.rs:335-370 | Each refusal in its place; and a signature only if it verifies and is from the shares of exactly the first custodians, by identifier, to answer round one, as many as the threshold, each made over the one package with the nonce committed for it. The aggregator never meets a share of a stranger. |
| `Ed25519Vault.SignsExactlyWhen` | src/ed25519.rs:345-370 | It signs exactly when enough custodians answer round one, each of the first of them answers round two, and their shares make a signature that verifies; each error exactly otherwise. |
| `Ed25519Vault.EveryChosenMustAnswer` | src/ed25519.rs:356-359 | The threshold is met in round two exactly when every chosen custodian answers: one that stays silent cannot be made up for by the others that answered round one. |
| `Ed25519Vault.JoinedAuthorises` | src/ed25519.rs:355-362 | What is put together then is from exactly the chosen, share by share. |
| `Signing.Aggregator.AddCommitment` | src/signing.rs:133-139 | A commitment is kept under its identifier, in place of any earlier one. |
| `Signing.Aggregator.GetPackage` | src/signing.rs:147-155 | A package only from at least the threshold of commitments, and then with all of them. |
| `Signing.Aggregator.Aggregate` | src/signing.rs:158-173 | No signature from fewer shares than the threshold or with a share of anyone who made no commitment; which error comes first. |
| `Signing.LocalQuorum.Round1` | src/signing.rs:400-420 | Every participant is asked; who refuses is absent. |
| `Signing.LocalQuorum.Round2` | src/signing.rs:422-438 | Only the chosen are asked. |
| `Signing.Round1Answers` | src/signing.rs:400-420 | With distinct identifiers each custodian's own answer, and nobody else's, is filed under its identifier. |
| `Signing.RoundsAlign` | src/signing.rs:400-438 | Through both rounds every share returned at an action's index is made with the nonce the same custodian committed there, over that action's package, under that action's randomizer. |
| `Signing.StillWellFormed` | src/signing.rs:400-420 | Round one leaves the same custodians in the same order, ready for round two. |
| `Signing.StillWellFormedAfter2` | src/signing.rs:422-438 | And round two leaves them ready for another round one. |
| `Payout.NeedsSignatures` | src/payout.rs:193-215 | Exactly the vault's own actions, with their indices in order; padding is left out. |
| `Payout.Payout.Apply` | src/payout.rs:222-236 | A signature is kept exactly when the action exists and the signature verifies under the action's own key. |
| `Payout.BuildPackages` | src/payout.rs:715-724 | The i-th package is over the sighash with exactly the chosen custodians' i-th commitments. |
| `Payout.SignAllWith` | src/payout.rs:687-749 | With something to sign, Ok exactly when at least the threshold answer round one, each of the first of them answers round two, and each action's shares combine to a signature its own key accepts; anything else is BadSignature, with the actions before the failing one signed. Then each of the n needed actions has one verifying signature, from the shares of exactly the threshold custodians chosen, each made with the nonce it committed for that action and under its own randomizer. Whatever it answers, no action changes otherwise, and the quorum is where the two rounds leave it, the same custodians ready for another payout. |
| `Payout.RoundTwoIs` | src/payout.rs:728-740 | Round two meets the threshold exactly when each of the chosen answers, and each answer is made with the same custodian's commitments. |
| `Payout.Attach` | src/payout.rs:732-747 | The last loop signs action after action, up to the first whose signature does not stand. |
| `Payout.ChosenAreCustodians` | src/payout.rs:711-714 | The chosen are custodians of the vault and exactly as many as the threshold. |
| `Payout.TwoRunsShareACustodian` | src/ceremony.rs:98-113 | For any shape the ceremony accepts the chosen of any two runs that reached their threshold have a custodian in common. |
| `Ceremony.New` | src/ceremony.rs:98-113 | Accepted exactly when there are two participants or more, the threshold can be met, and any two sets of that many participants intersect. |
| `Ceremony.MajorityExactlyWhenQuorumsMeet` | src/ceremony.rs:105-108 | Any two sets of t among n intersect exactly when 2t > n. |
| `Fees.Build` | src/payout.rs:264-321 | The checks, the totals and the two-turn fee loop, up to the plan handed to the bundle builder, and every refusal; and a plan it returns balances: the notes are the store's, they are worth exactly the payments, the change and the fee, and the fee is the ZIP 317 fee of that very selection. |
| `Fees.Settle` | src/payout.rs:287-320 | The loop: the first turn whose fee is its own is the plan, a selection that fails stops it, and after two turns it gives up. |
| `Fees.PlanBalances` | src/payout.rs:264-321 | Whenever a plan is returned it balances, value and fee. |
| `Fees.PlanPaysItsWay` | src/payout.rs:253-305 | Of every plan: the fee is five thousand for each transparent payment and each action, two actions at least, counted on the payments, the notes and the change themselves; and the notes are worth the payments, the change and the fee. |
| `Fees.RefusedOutright` | src/payout.rs:274-283 | Nothing to pay exactly when there is no payment; not payable here exactly when some payment is shielded where outputs may not cross addresses; a total past u64 an error of its own. |
| `Fees.ShortOf` | src/payout.rs:289 | A shortfall names what is held and the payments with the fee then tried: the least, or the one the first selection wanted. |
| `Fees.PlanIsSelected` | src/payout.rs:289-290 | And its notes are what `select` chooses for the payments with that fee. |
| `Fees.ChargesTheLeast` | src/payout.rs:285-318 | No smaller fee fits the selection made for it, except one action's fee less when that selection leaves no change. |
| `Fees.NotConvergedExactlyWhen` | src/payout.rs:285-320 | Exactly when two passes do not settle the fee, told from the vault's notes in the order they are taken: the first selection costs more than the least fee, everything held is worth the total with the larger fee, the first selection is worth no more than that, and either it is worth it to the last unit and its change was an action of its own, or the notes added do not make as many actions as the first selection with its change did, which is spelled out for both kinds of bundle. |
| `Fees.WhyUnsettled` | src/payout.rs:285-320 | And then either the larger fee needs another note, in front of which the first selection is kept whole, or the notes are the same and the larger fee has swallowed the change to the last unit. |
| `Fees.TwoPassesCanFail` | src/payout.rs:285-287 | Two passes do not always settle it: a vault and a payout it could make at a fee that fits itself, which `build` refuses. |
| `DkgNet.Begin` | src/dkg_net.rs:108-135 | A participant and the broadcast of its package and its sealing key under its identifier. |
| `DkgNet.DkgParticipant.Part2` | src/dkg_net.rs:140-171 | Broadcasts are taken in, all of them must be there, the round-one secret is used up whatever the library then makes of it, and one package is sealed for each other participant; each refusal in its place. |
| `DkgNet.DkgParticipant.Part3` | src/dkg_net.rs:175-204 | The round-two secret is used up whatever follows, the packages are opened one by one with their senders' keys, the first that cannot be stops it with its own error, and the library has the last word. |
| `DkgNet.EachRoundOnce` | src/dkg_net.rs:140-204 | Once a part has got as far as the library, whether that succeeds or not, a second call of it refuses, whatever the library. |
| `DkgNet.PartTwoGives` | src/dkg_net.rs:140-171 | What `part2` gives the library and makes of its word: the secret and the others' packages, the last broadcast under each identifier, one's own left out; then one package for each of them, sealed between the two keys. |
| `DkgNet.PartThreeGives` | src/dkg_net.rs:175-204 | `part3` succeeds exactly with one package from each other participant that opens under that sender's key and fits, and the library willing on the secret, the others' packages and what was opened. |
| `DkgNet.Relay.Handle` | src/dkg_net.rs:431-503 | Posts are kept by identifier; both fetches wait for everyone; round two hands each participant what is addressed to it, by sender. |
| `CeremonyRun.PartTwoGoes` | src/dkg_net.rs:603-614 | Once the relay has every broadcast, what it hands out makes `part2` succeed with all of them, whichever order they came in. |
| `CeremonyRun.PartThreeGoes` | src/dkg_net.rs:626-635 | What is addressed to a participant opens to exactly what each sender put in, sender by sender, and `part3` succeeds with that. |
| `CeremonyRun.StepKeeps` | src/dkg_net.rs:585-635 | Every turn keeps every participant and the relay where an undisturbed ceremony would have them, and takes nobody back. |
| `CeremonyRun.EveryInterleavingIsSafe` | src/dkg_net.rs:585-635 | In every interleaving nobody fails; whoever has left round one holds all N broadcasts, the same for everyone; whoever has left round two holds exactly one ciphertext from each other participant, the one sealed by it for this one, and has opened each to what its sender put in; each part has run once. |
| `CeremonyRun.NeverStuck` | src/dkg_net.rs:559-569 | In no reachable unfinished state is everybody kept waiting. |
| `CeremonyRun.FourSweepsFinish` | src/dkg_net.rs:585-635 | From any reachable state, once everybody has had a turn four times over, in any order, the ceremony is finished for everybody: among participants that never give up, who are the next rows' matter. |
| `Patience.SafeWhoeverGivesUp` | src/dkg_net.rs:543-569 | In every interleaving of calls, lost connections and participants that give up after six hundred answers to wait, each participant is as safe as if nobody had, and nobody is past a round not everybody posted for. |
| `Patience.OneGoneStopsAll` | src/dkg_net.rs:559-569 | One that gives up before it has posted for round two keeps everybody from finishing, for good. |
| `Patience.RestFinishExactlyWhen` | src/dkg_net.rs:559-635 | When the rest go on for four sweeps with nobody more giving up, they finish exactly when all that gave up had posted for round two. |
| `Patience.FinishedWithinPatience` | src/dkg_net.rs:559-569 | With no connection lost and fewer turns each than a poll has, nobody gives up and four sweeps finish it for everybody. |
| `Patience.AloneGivesUp` | src/dkg_net.rs:559-569 | The limit is met: a participant left alone gives up at the six hundredth answer to wait and not before. |
| `SealKeys.SameSealExactlyWhenSamePair` | src/dkg_net.rs:48-71 | Of the packages posted in any reachable state, two are sealed under one key and nonce exactly when they go between the same two participants, in either direction. |
| `SealKeys.BothWaysAlike` | src/dkg_net.rs:48-71 | Once two participants have posted, their packages to each other are sealed under one key and nonce and say different things. |
| `SealKeys.UsedOnceExactlyWhenOneHasPosted` | src/dkg_net.rs:60-61 | No key seals two packages at the relay exactly as long as at most one participant has posted. |
| `SealKeys.FinishedUsedOnceExactlyWhenAlone` | src/dkg_net.rs:60-61 | In a finished ceremony exactly when it had one participant or none: never, for a shape the ceremony accepts. |
| `SealKeys.AKeyUsedTwice` | src/dkg_net.rs:60-71 | Wherever there are two participants, a schedule after which one key and nonce have sealed two different packages. |
| `SealKeys.TwoParticipants` | src/dkg_net.rs:60-71 | A ceremony of two, whatever they draw. |

## Left out

- Notes.NoteStore.Append: the witnessing tree is a leaf sequence with checkpoints; Merkle paths, roots, anchors and the frontier a store is seeded from are not modelled.
- Fees.Build: stops at the plan; anchor, witnesses, proofs, the bundle and the envelope around it are a library's. A total that does not fit a u64 is an error of its own here; the code stops or wraps there, as it was built.
- DkgNet.DkgParticipant.Part2: what the key-generation library refuses, such as a bad proof of knowledge, is a parameter; the ceremony as a whole is run among participants who keep to the protocol.
- CeremonyRun.FourSweepsFinish: nobody gives up there; `Patience` has lost connections and the limit on polls, but not how long a call or a sleep takes.
- Payout.SignAllWith: the quorum is the one in the same process; a remote one, and the request id drawn at random, appear only as parameters.
- Ed25519Vault.SignWith: the same; the request id is drawn at random in the code.
- Observe.ObserveChain: a node that answers differently while a pass is running is covered, since each height is asked for once; the lists of anchors, application payments and forced frames read by other passes, and reseeding a tree, are not modelled.
- Shielded.Take: a memo whose reading panics (`Memo.MemoPanicsExactlyWhen`) does not reach it; what the panic does to the scan or the feeding around it is not modelled.
- Erasure.FailuresErased: a run that stops after failed attempts, before the block's full answer, is not told of; what those leave is `Undoing.WhatAFailureLeaves`.
- TCP, HTTP and JSON-RPC, their frame codecs, threads, sleeps and files.
- The cryptography: FROST, RedPallas, Ed25519, x25519, ChaCha20-Poly1305, SHA-256, note decryption, proofs and sighashes.
- Display formatting, base64, account hashing, transparent key derivation and the sweep: easy, or a library's.
