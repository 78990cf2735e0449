# Gal: collaborative editing, verified

Gal lets any number of people type into the same message at once. A document is a run-length list
of inserts, a change is a list of insert, retain and delete ops, and the operational-transformation
engine (`crates/gal-ot`) composes changes, transforms concurrent ones over each other and inverts
them. The server keeps the authoritative document and its history, the browser keeps one op in
flight and a buffer behind it, and storage keeps an op log that can be replayed. This project models
those parts in Dafny and proves what they are for.

The model has two layers. Lengths and boundaries are UTF-16 code units throughout.

- **Functions on op lists** (`Deltas`, `Composing`, `Transforming`, `Inverting`, `Histories`), measured
  against a reference in which a document is a sequence of cells, one per code unit, and a change a
  sequence of atoms, one per unit it adds, keeps or removes (`Deltas`, `Algebra`). The laws are proved
  here. `Fits(ops, d)` says that every retain and delete of `ops` ends inside `d`, on a character
  boundary; `Effect(d, ops)` is what `ops` makes of `d`; `Content(doc)` are the cells of a document.
- **Loops and objects as the source has them** (`Iterating`, `Engine`, `Reverting`, `Validating`,
  `Serving`, `Client`, `Durable`, ..., and `JsEngine`, `JsLoops`, `JsReverting` for the browser's
  engine): iterators with a cached byte offset, a builder that merges in place, machine-word lengths
  that saturate, classes whose methods change their fields. Each method is proved to compute the
  function whose laws are known, or to lead to the state it should. Where input may be malformed, what
  the loop makes of it is a function as well (`Engine.ComposeAny`, `Engine.TransformAny`,
  `Reverting.SliceAny`), and both engines compute it.

What the lengths measure is pinned to the encodings themselves (`Encodings`). On top of these stand the
state machine of the whole protocol (`Protocol`), which the objects are proved to play event by event
(`Parties`) and in which no work is lost (`Keeping`), and the server's bookkeeping (`Delivery`, `Membership`, `Comments`,
`Agents`, `Limiting`).

Where a promise does not hold as it stands, an input that breaks it is given, and the exact condition
under which it does hold:

- **A retain of length zero before an embed repeats the embed.** The wire format admits such an op
  and validation accepts it, but the iterator hands out a whole embed when asked for nothing of it.
  `Repeating.AppliesExactlyIff` says exactly when applying a change goes right. The engine itself
  never builds an empty op, so elsewhere the condition is `NoEmptyOp`, or `AppliesExactly` itself.
- **An explicit null on a document is not brought back by undo**, and neither are runs that were not
  merged. `Inverting.UndoExactIff` says exactly when undo restores the document; the rollback of an op
  that could not be stored rests on it, and so does going back to an earlier revision
  (`Histories.WalkBackExactIff`).
- **Replaying a seeded message gives back its runs only if the seed was canonical**
  (`Durable.SeedApplied`).
- **A caret and an insert made at it part company** when a change inserts after it deletes
  (`Carets.CaretIsInsertIff`). The builder never writes a change so, but one that needs no rebasing is
  passed on as it came.
- **A revision can be skipped** by someone who leaves a private reply and is let back in while
  watching the wave (`Delivery.NoGapsIff`, `Delivery.LeaveAndReturn`).

The doc comments of `compose` ("the same effect as applying `a` and then `b`",
`crates/gal-ot/src/delta.rs:505-506`) and of `ServerDoc::rollback_last` ("restoring the exact previous
state", `crates/gal-ot/src/lib.rs:226`) promise a little more than the code does in the first two
cases, and the protocol's contract that every client's revision counter tracks the server's
(`crates/gal-core/src/protocol.rs:16-18`) in the last; the model follows the code.

Run `dafny verify dfyconfig.toml` to check the project.

## Model

| member | source | states |
|---|---|---|
| Utf16.Utf16Len | crates/gal-ot/src/text.rs:9-13 | Counting characters by width gives the length in code units, as measured from the front. |
| Encodings.Utf16RoundTrip | crates/gal-ot/src/text.rs:9-13 | That length is the length of the UTF-16 encoding: as many units, each below 0x10000, and decoding them gives the string back. |
| Encodings.Utf8RoundTrip | crates/gal-ot/src/text.rs:15-31 | Byte offsets are measured in the UTF-8 encoding: as many bytes, each below 0x100, and decoding them gives the string back. |
| Encodings.LowIsLowSurrogate | crates/gal-ot/src/text.rs:1-8 | The units a document may not be cut before are the low surrogates of its text. |
| Utf16.CoversLeast | crates/gal-ot/src/text.rs:15-31 | The characters that a request for some units is rounded up to are the fewest that cover it, or all there are. |
| Utf16.AdvanceUtf16 | crates/gal-ot/src/text.rs:15-31 | From a character boundary, going so many code units on lands on a boundary again, a request that ends inside a character being rounded up; the byte reached is the one that measuring the prefix gives. |
| Utf16.Utf16Slice | crates/gal-ot/src/text.rs:38-43 | A slice by code units is the characters between the two offsets, each rounded up to a character; past the end, or backwards, it is what is left or nothing. |
| Attributes.ComposeAttributes | crates/gal-ot/src/attributes.rs:20-36 | The loop yields the later map on top of the earlier one, removals surviving only over a retain. |
| Attributes.FormatGives | crates/gal-ot/src/attributes.rs:20-36 | A formatted run has the value given for a key, lacks a key given null, and keeps every other key. |
| Attributes.InvertAttributes | crates/gal-ot/src/attributes.rs:54-69 | The two loops restore what was overwritten and remove what was introduced. |
| Attributes.PriorityActsLast | crates/gal-ot/src/attributes.rs:42-50 | Of two concurrent formattings the prioritised one acts as if it had come last, whichever of them did. |
| Attributes.FormatConverges | crates/gal-ot/src/attributes.rs:42-50 | Two concurrent formattings reach the same map in either order. |
| Attributes.InvertExactIff | crates/gal-ot/src/attributes.rs:54-69 | Formatting a run and undoing it is the identity exactly when the run held no explicit null under a key the change sets. |
| Iterating.Delta.Push | crates/gal-ot/src/delta.rs:267-314 | Appending in place merges, drops an empty op, puts an insert before a trailing delete, and saturates lengths at the machine word. |
| Iterating.SaturatingPushExact | crates/gal-ot/src/delta.rs:277-283 | As long as the spans of a list fit in a machine word, no length is ever cut short. |
| Deltas.PushCanonical | crates/gal-ot/src/delta.rs:265-314 | Appending keeps a list canonical: no empty op, no two neighbours that could be one, no insert straight after a delete. |
| Deltas.BuiltCanonical | crates/gal-ot/src/delta.rs:265-325 | Whatever is pushed, and chopped at the end, the list that results is canonical. |
| Building.BuiltKeeps | crates/gal-ot/src/delta.rs:265-325 | The merged and reordered list fits every document the pushed ops fit, and does the same to it. |
| Documents.CanonicalChangeUnique | crates/gal-ot/src/delta.rs:265-314 | Canonical is a normal form of changes: two canonical changes, their deletes without attributes, that insert, keep with the same formatting and delete the same units in the same order are the same op list. |
| Documents.CanonicalUnique | crates/gal-ot/src/delta.rs:286-289 | Two canonical documents with the same content, unit by unit and attribute by attribute, are the same op list. |
| Iterating.OpIterator.Next | crates/gal-ot/src/delta.rs:471-501 | Whatever is asked for, the iterator hands out the characters that cover it and counts the units that were asked for; cut on a boundary that is the piece the list holds there, the rest of the list is left, and the cached byte offset is the one recomputing it would give. |
| Iterating.CutTextTwice | crates/gal-ot/src/delta.rs:488-492 | Cutting a text op again where an earlier cut left off is cutting the whole op further on, so the incremental offsets agree with offsets taken from the start. |
| Composing.CutFlat | crates/gal-ot/src/delta.rs:471-501 | A piece and what is left of the list make up, unit by unit, the list that was cut. |
| JsEngine.AdvanceUnits | crates/gal-server/src/web/ot.js:87-112 | Walking UTF-16 units in the browser, reading surrogates, stops at the same character as walking characters on the server, also when rounding up. |
| JsEngine.EncodeOpsInjective | crates/gal-server/src/web/ot.js:1-20 | What the browser holds of an op list determines it, so that equality in the browser is equality on the server. |
| JsEngine.JsIterator.Next | crates/gal-server/src/web/ot.js:114-177 | The browser's iterator yields, for every cut, also one that splits a character, the piece the server's iterator yields, and stands at the same place afterwards. |
| JsEngine.PushAlike | crates/gal-server/src/web/ot.js:212-259 | The browser's builder, merging code units where the server merges strings, builds the server's list. |
| JsLoops.JsCompose | crates/gal-server/src/web/ot.js:367-404 | The browser's composition of any two changes, malformed ones included, is the server's, op for op, as long as no sum outgrows the server's machine word. |
| JsLoops.JsTransform | crates/gal-server/src/web/ot.js:406-437 | The browser's transformation is the server's, op for op, whatever the two changes. |
| JsLoops.JsTransformPosition | crates/gal-server/src/web/ot.js:444-462 | The browser moves a caret where the server moves it. |
| JsReverting.JsSlice | crates/gal-server/src/web/ot.js:305-321 | The browser's slice of a document is the server's, op for op, whatever the bounds. |
| JsReverting.JsInvert | crates/gal-server/src/web/ot.js:465-490 | The browser's inverse is the server's, op for op. |
| Composing.ComposeListMeans | crates/gal-ot/src/delta.rs:508-553 | Unit by unit, what compose pushes is the composition of the two changes, whatever offsets ops are split at. |
| Composing.ComposeMeans | crates/gal-ot/src/delta.rs:503-553 | On every document the first change fits, the composed change fits too and does what the first and then the second do; it is canonical. |
| Engine.ComposeOnce | crates/gal-ot/src/delta.rs:513-550 | Each pass of the loop exhausts at least one current op and pushes the next op of those that `ComposeCuts` lists, wherever the cuts fall. |
| Engine.ComposeDeltas | crates/gal-ot/src/delta.rs:508-553 | On any two changes in memory the loop over two iterators ends and builds what the cuts give, rounding and saturating as the machine does; on changes in sequence that is the composition whose laws are proved. |
| Engine.ComposeAnyExact | crates/gal-ot/src/delta.rs:508-553 | Where cuts split no character and stay within the document, rounding and saturation never show. |
| Engine.ComposeAnyDocument | crates/gal-ot/src/delta.rs:508-553 | A change that asks for no more units than a document has leaves a document, even where its cuts split characters. |
| Documents.ApplyChange | crates/gal-ot/src/delta.rs:384-388 | Applying a valid change to a document gives a canonical document whose content is the effect of the change. |
| Documents.ComposeDocuments | crates/gal-ot/src/delta.rs:503-507 | Applying one change and then another is applying their composition, as equality of op lists. |
| Documents.ComposeAssociative | crates/gal-ot/src/tests.rs:163-178 | Composition is associative on every document it can be applied to. |
| Repeating.AppliesExactlyIff | crates/gal-ot/src/delta.rs:482-484 | Applying a valid change to any document, empty runs included, does what the change means if and only if none of its retains of length zero meets an embed as the two lists are walked; otherwise the result is longer, by at most one embed for each op. |
| Repeating.MeetsEmbedAt | crates/gal-ot/src/delta.rs:482-484 | On a document without empty runs such a retain meets an embed exactly when it stands directly before one in the content; on any document it meets none otherwise. |
| Repeating.EmptyRunProtects | crates/gal-server/src/ws.rs:1562-1583 | An empty text run in front of an embed, as a seed may have, uses one empty retain up, but not two. |
| Repeating.EmptyRetainRepeatsEmbed | crates/gal-ot/src/delta.rs:482-484 | One embed and one retain of length zero make two embeds. |
| Transforming.TransformListMeans | crates/gal-ot/src/delta.rs:563-596 | Unit by unit, what transform pushes is the second change moved over the first, with the prioritised side first at ties. |
| Transforming.TransformMeans | crates/gal-ot/src/delta.rs:555-596 | The transformed change is canonical, is valid for what the first change made of the document, and does there what the unit-by-unit transformation does. |
| Transforming.PriorityWins | crates/gal-ot/src/delta.rs:555-596 | Either order gives what the two changes make of the document together, which is said without transforming anything: the prioritised insert first where they tie, a unit gone that either deletes, and the prioritised formatting on top of the other. |
| Transforming.Converge | crates/gal-ot/src/lib.rs:23-27 | For every document and every two valid changes, empty ops included, each followed by the other one transformed over it gives the same content. |
| Documents.ConvergeDocuments | crates/gal-ot/src/lib.rs:20-27 | The transformation property as equality of op lists, with attributes, embeds and insert ties, for every two valid changes that each apply exactly. |
| Engine.TransformOnce | crates/gal-ot/src/delta.rs:568-593 | Each pass of the loop exhausts at least one current op and pushes exactly the next op. |
| Engine.TransformDeltas | crates/gal-ot/src/delta.rs:563-596 | On any ops from the wire the loop ends and builds what `TransformCuts` lists, with no empty op, no more inserted than it was given and no explicit null brought in; when no length reaches the machine word the result is the transformation. |
| Carets.TransformPosition | crates/gal-ot/src/delta.rs:603-626 | The loop over the ops computes where a caret goes. |
| Carets.InsertLands | crates/gal-ot/src/delta.rs:563-626 | Transformed over any change, an insert made at a caret is again one insert, at a position given exactly. |
| Carets.CaretIsInsertIff | crates/gal-ot/src/delta.rs:598-626 | Mapping a caret is transforming an insert made at it, for every caret, insert and tie, if and only if the change inserts nothing after a deletion or an empty retain with nothing kept in between. |
| Carets.CaretIsInsert | crates/gal-ot/src/delta.rs:598-626 | So the law holds for every canonical change. |
| Carets.CaretNeedsSafe | crates/gal-ot/src/delta.rs:598-626 | The two smallest changes that break it: text inserted after a deletion, and after an empty retain. |
| Carets.Monotone | crates/gal-ot/src/delta.rs:603-626 | Carets keep their order. |
| Carets.FollowsUnit | crates/gal-ot/src/delta.rs:598-602 | A caret that gives way to inserts stays in front of the same character, if that character survives. |
| Inverting.SliceContent | crates/gal-ot/src/delta.rs:411-426 | A slice is a canonical document that holds exactly the units between its bounds; a bound past the end is as good as the end. |
| Reverting.SliceDelta | crates/gal-ot/src/delta.rs:411-426 | The loop that skips and then takes ends whatever the bounds, and computes that slice when they split no character, past the end included; a slice that ends before it starts is empty. |
| Reverting.InvertDeltas | crates/gal-ot/src/delta.rs:629-661 | The loop that walks the change and slices the base computes the inverse. |
| Inverting.InvertMeans | crates/gal-ot/src/delta.rs:628-661 | The inverse is canonical, applies after the change, and brings the content back exactly when the change formatted no explicit null. |
| Inverting.UndoExactIff | crates/gal-ot/src/delta.rs:628-661 | Applying a change and its inverse gives back the same op list if and only if that list was canonical and the change formatted no explicit null. |
| Inverting.UndoExact | crates/gal-ot/src/tests.rs:824-842 | On a canonical document without nulls every valid change followed by its inverse is the identity, deleted runs' formatting included. |
| Inverting.UndoLosesNull | crates/gal-server/src/ws.rs:1640-1644 | A null stored on an insert and formatted again is lost by undo. |
| Inverting.NullFreeKept | crates/gal-ot/src/delta.rs:512-530 | A change whose inserts carry no null keeps a document without nulls that way. |
| Validating.AcceptedIff | crates/gal-ot/src/delta.rs:675-711 | The verdict accepts a change if and only if every retain and delete ends inside the document on a character boundary. |
| Validating.RefusalMeans | crates/gal-ot/src/delta.rs:675-711 | A refusal is to the point: it names the first op at fault, everything before it being fine, with how far that op reaches past the end, or where it splits a character. |
| Validating.WalkSpan | crates/gal-ot/src/delta.rs:691-708 | Walking one span through the text ends past the end, inside a character or on a boundary, and says which, with the offset, even when the offset saturates. |
| Validating.Validate | crates/gal-ot/src/delta.rs:680-711 | One pass over the plain text decides validity, and gives the reason that reading the content gives. |
| Validating.PlainTextShape | crates/gal-ot/src/delta.rs:363-375 | The plain text, with one placeholder for each embed, has the same character boundaries as the document. |
| Validating.PlainTextReads | crates/gal-ot/src/delta.rs:363-375 | Unit by unit, the plain text is the content, with the object replacement character for every embed. |
| Diffing.DiffText | crates/gal-ot/src/delta.rs:713-770 | For all strings, the difference is canonical and valid on the first, and applying it gives exactly the second; no character is split, and nothing outside the longest common prefix and, after it, the longest common suffix is touched. |
| Diffing.ReplacingRoundTrip | crates/gal-ot/src/delta.rs:762-769 | Keeping a prefix, dropping a middle and inserting another turns the one text into the other, as documents. |
| Histories.RebasedFits | crates/gal-ot/src/lib.rs:192-208 | A change that is valid where its author stands stays valid after rebasing over any sequence of committed ops. |
| Histories.CommittedFirst | crates/gal-ot/src/lib.rs:192-196 | Rebased over one more commit, an op does what it and that commit make of the document together, the commit having priority in every tie and conflict. |
| Histories.TakeBackExactIff | crates/gal-ot/src/lib.rs:226-243 | Taking back the last committed op gives back the document before it if and only if that document was canonical and the op formatted no explicit null. |
| Histories.CleanTakeBack | crates/gal-ot/src/lib.rs:226-243 | On a document that started canonical and without nulls, whatever is committed next can be taken back exactly. |
| Histories.InverseIsStep | crates/gal-ot/src/lib.rs:86-89 | The inverse stored with an op applies to what the op made and gives every symbol back. |
| Serving.FromSnapshot | crates/gal-ot/src/lib.rs:121-130 | A stored document is restored exactly when it consists only of inserts. |
| Serving.ServerDoc.Rebase | crates/gal-ot/src/lib.rs:192-196 | Transforming forward over the retained entries newer than the client's revision rebases over exactly the commits the client has not seen; a valid op comes out valid. |
| Serving.ServerDoc.Commit | crates/gal-ot/src/lib.rs:210-224 | A commit stores the op with its inverse, moves content and revision on, and keeps one more history entry, up to 2048: the newest ones, consecutive and ending at the revision. |
| Serving.KeptNewest | crates/gal-ot/src/lib.rs:218-224 | After any commits in a row what is retained are exactly the newest 2048 of them, or all. |
| Serving.ServerDoc.Apply | crates/gal-ot/src/lib.rs:173-225 | Every outcome of a submission: from the future, too old, too long, splitting a character, or committed; a refusal gives a reason that is true and changes nothing. The window of 2048 revisions is counted from the newest revision there has been, and within it an op that was valid at the client's revision is always committed. |
| Serving.ServerDoc.RollbackLast | crates/gal-ot/src/lib.rs:226-243 | The last op is taken back, costing at most the oldest history entry; the document is the one that replaying the log gives if and only if the condition for exact undo held. Also where an op repeated an embed, what is left is a document. |
| Serving.ServerDoc.AtRevision | crates/gal-ot/src/lib.rs:245-266 | For every retained revision the walk back over stored inverses gives the symbols of the replayed log, and that very document when every entry walked over can be taken back exactly; over the whole retained window it does so if and only if every retained entry can. |
| Histories.WalkBackExactIff | crates/gal-ot/src/lib.rs:245-266 | Walking back is right at every position down to a given one exactly when, at each of them, the document was canonical and the op that followed formatted no explicit null. |
| Histories.WalkLosesNull | crates/gal-ot/src/lib.rs:245-266 | One null and one op that formats it make the document before it come out wrong. |
| Serving.Replay | crates/gal-ot/src/lib.rs:268-278 | Playback of a log up to a point composes exactly its first ops, from empty. |
| Client.MovedPast | crates/gal-server/src/web/client.js:88-104 | Two concurrent ops moved past each other are each valid where they go, and both orders give the same document. |
| Client.FollowsLocal | crates/gal-server/src/web/client.js:61-71 | A local edit, in flight or composed into the buffer, leaves the document equal to the server's with the pending ops on top. |
| Client.FollowsRemote | crates/gal-server/src/web/client.js:80-103 | Another participant's op, moved past what is pending, is valid on the view and keeps the document in step with the server one revision on. |
| Client.FollowsAck | crates/gal-server/src/web/client.js:109-120 | When the op in flight is committed as it stands, the buffer takes its place and nothing visible changes. |
| Client.BlipDoc.ApplyLocal | crates/gal-server/src/web/client.js:61-71 | The fields after a local edit, and which op is to be sent, with the document still in step. |
| Client.BlipDoc.ApplyRemote | crates/gal-server/src/web/client.js:80-103 | The fields after a remote op, and the rebased op the view applies, with the document still in step. |
| Client.BlipDoc.Acknowledge | crates/gal-server/src/web/client.js:109-120 | The fields after a confirmation, and which op is to be sent next, with the document still in step. |
| Client.BlipDoc.PendingWork | crates/gal-server/src/web/client.js:129-133 | What is unconfirmed, as one change, takes the server's document to the one shown; there is none exactly when the client is synchronised. |
| Client.BlipDoc.Reset | crates/gal-server/src/web/client.js:141-146 | Local state is dropped and the server's adopted. |
| Protocol.EventKeeps | crates/gal-server/src/state.rs:1059-1166 | Every event of the protocol (edit, submission accepted or refused, delivery, joining, leaving) keeps the invariant that ties each client's document, pending ops and queues to the server's log. |
| Protocol.RunInv | crates/gal-core/src/protocol.rs:6-18 | The invariant holds after every run, whatever the order of events. |
| Protocol.Convergence | crates/gal-server/src/web/client.js:5-18 | In every run, with any number of clients, whenever all queues are empty every client shows the server's document and nothing is left pending. |
| Protocol.ClientDocument | crates/gal-server/src/web/client.js:36-50 | At every point of every run a client shows the server's document at its revision, then its op in flight, then its buffer. |
| Protocol.AckConfirmsOutstanding | crates/gal-server/src/web/app.js:2407-2420 | When an ack arrives the op that was committed is the op the client holds in flight, and the revision goes up by one. |
| Protocol.NeverRefused | crates/gal-ot/src/lib.rs:192-208 | In every run a submission is valid when it arrives; only its age or the size of the result can speak against it. |
| Protocol.SubmissionMeans | crates/gal-server/src/web/client.js:88-91 | Rebasing a submission on the server gives the op the client holds, rebased over the commits it has not seen. |
| Keeping.EditShown | crates/gal-server/src/web/client.js:61-71 | In every run, right after an edit the client shows what it showed with the edit on top. |
| Keeping.SubmitCommits | crates/gal-server/src/state.rs:1059-1166 | In every run, an accepted submission makes the log one entry longer, by the op its author holds, rebased over what the author has not seen; nobody is disconnected, the author is sent the confirmation and everyone else the op. |
| Keeping.EditsKept | crates/gal-server/src/web/client.js:52-120 | At every point of every run, all that a connected client has typed since it opened the wave, each edit once and in order, is in the log, in flight or in the buffer, as typed, merged with its neighbours or moved past other commits. |
| Keeping.NothingLost | crates/gal-server/src/web/client.js:5-18 | When a run is at rest, every edit of every client that has neither left nor been refused is in the log, in the order it was typed. |
| Parties.Open | crates/gal-server/src/web/client.js:36-50 | Opening the wave is the protocol's join event. |
| Parties.Type | crates/gal-server/src/web/client.js:61-71 | A local edit in the browser's object is the protocol's edit event: before and after it the object is that client of the system, it sends what the event queues, and nobody else is touched. |
| Parties.Hear | crates/gal-server/src/web/client.js:80-103 | Taking another participant's op is the protocol's receive event, in the same sense. |
| Parties.Confirm | crates/gal-server/src/web/client.js:109-120 | So is taking a confirmation, after which the next op goes out. |
| Parties.Submit | crates/gal-server/src/state.rs:1059-1166 | The server's handling of a submission, down to the tables, is the protocol's submit event, accepted exactly when it is acknowledged, and that is exactly when the submission is within 2048 of the newest revision there has been, the result has at most 262144 units in 16384 runs, and the write succeeds. An accepted op is the next entry of the log and everyone is told; the revisions the two count differ by the one the message was loaded at. |
| Durable.Storage.Seeded | crates/gal-server/src/db.rs:2222-2247 | A new message and the op that seeds it are written together, and replaying the op table gives its content. |
| Durable.SeedApplied | crates/gal-server/src/db.rs:2225-2240 | Replaying a seed gives its content, and its very runs if and only if it was canonical. |
| Durable.Storage.RevisionForOp | crates/gal-server/src/db.rs:976-996 | The lookup finds the revision of an op id exactly when one was committed under it, unless it fails. |
| Durable.Storage.CommitOp | crates/gal-server/src/db.rs:998-1041 | Op and snapshot are written together or not at all; a taken revision or op id fails. |
| Durable.StoreGrows | crates/gal-server/src/db.rs:998-1041 | One more committed op leaves the op table without a hole, no op id in it twice, and replaying to the stored content. |
| Durable.LiveBlip.Persist | crates/gal-server/src/state.rs:1098-1140 | A successful write leaves memory and storage equal; a failed one leaves storage alone and puts content, revision, contributors and modification time back, exactly when the op can be undone exactly. |
| Durable.LiveBlip.ApplyOp | crates/gal-server/src/state.rs:981-1166 | A submission, empty ops included, is committed if and only if access, mode, window, validity, size and both table operations allow it; a known op id changes nothing and is acknowledged again; everything else leaves storage alone. Unless the op has an empty retain before an embed, a committed op is in memory and storage alike, and memory is put back after a failure exactly when the op can be undone exactly. |
| Durable.ContributedOnce | crates/gal-core/src/model.rs:496-501 | Recording an author lists them, once, and leaves the others in order. |
| Durable.LiveBlip.ApplyAll | crates/gal-server/src/state.rs:981-1166 | Over any mix of submissions, retries, refusals and failures, of ops without empty ops and explicit nulls, memory and storage say the same, the op log replays to the document without a hole, no op id is in it twice and the limits hold. |
| Delivery.Fanout.Broadcast | crates/gal-server/src/state.rs:303-325 | Everyone the message is for gets it or is dropped in the same step; nobody else is touched. |
| Delivery.Fanout.Commit | crates/gal-server/src/state.rs:1142-1166 | One commit puts exactly one message on the queue of every connection whose user may see it, or drops the connection, and touches nobody else; nobody without access can commit. |
| Delivery.EventKeeps | crates/gal-server/src/ws.rs:568-637 | Opening and closing the wave, overflowing queues, commits, joining and leaving keep this invariant: a connection has been sent exactly the commits since its snapshot that its user could see. |
| Delivery.NoGapsIff | crates/gal-core/src/protocol.rs:6-18 | In every run a connection has missed no commit since its snapshot if and only if its user was in the wavelet at every one of them. |
| Delivery.ConversationNoGaps | crates/gal-server/src/ws.rs:1198-1314 | For a message of the conversation that is always so, because leaving the conversation ends the connection's watch. |
| Delivery.LeaveAndReturn | crates/gal-server/src/ws.rs:1129-1314 | In a private reply it is not: whoever leaves it and is let back in keeps their connection, is given no snapshot, and is next told of a revision that does not follow the last. |
| Membership.LiveWave.AddParticipant | crates/gal-server/src/ws.rs:1129-1196 | Says exactly when it is carried out; nobody enters a private reply without being in the conversation, and memory stays equal to the tables when the write fails. |
| Membership.LiveWave.RemoveParticipant | crates/gal-server/src/ws.rs:1198-1314 | Says exactly when it is carried out; leaving the conversation takes the private replies along, the last member stays, and whoever can no longer see the wave stops watching it. |
| Membership.LiveWave.StartPrivateReply | crates/gal-server/src/ws.rs:1316-1427 | Says exactly when it is carried out; a private reply has only members of the wavelet it hangs off. |
| Membership.StoredRemoved | crates/gal-server/src/db.rs:855-875 | The two deletions in the tables do what memory does one wavelet at a time. |
| Membership.RemovedOk | crates/gal-server/src/ws.rs:1228-1291 | After a removal the conversation is not empty and every private reply is within it. |
| Membership.MayViewIff | crates/gal-server/src/state.rs:291-294 | Being in any wavelet of the wave is being in its conversation. |
| Comments.LiveWave.CreateBlip | crates/gal-server/src/state.rs:202-251 | Says exactly when it is carried out; a reply hangs off a message of the same wavelet. |
| Comments.LiveWave.CreateComment | crates/gal-server/src/ws.rs:709-814 | Says exactly when it is carried out; a thread starts with a remark, on a message that is there and is not a remark. |
| Comments.LiveWave.ReplyToComment | crates/gal-server/src/ws.rs:816-875 | Says exactly when it is carried out; a remark joins an open thread and hangs off the message the thread annotates. |
| Comments.LiveWave.ResolveComment | crates/gal-server/src/ws.rs:882-935 | Closing or reopening a thread changes nothing else, and nothing when the write fails. |
| Comments.LiveWave.DeleteBlip | crates/gal-server/src/ws.rs:937-1041 | A message goes exactly when its author may delete it and it has no replies, and takes exactly its threads and their remarks along. |
| Comments.CascadesAgree | crates/gal-server/src/db.rs:1043-1075 | The cascade in the tables removes from a wave exactly what the cascade in memory removes. |
| Comments.CascadeStaysHome | crates/gal-server/src/db.rs:1043-1075 | The cascade in the tables takes nothing from any other wave. |
| Comments.TablesAfterDelete | crates/gal-server/src/ws.rs:992-1020 | After a deletion every thread of every wave still has its message and a remark, and every remark its thread. |
| Agents.Storage.CreateAgentReply | crates/gal-server/src/db.rs:438-477 | Message and receipt are written together or not at all, and never twice for one request. |
| Agents.Storage.CreateReply | crates/gal-server/src/agent.rs:394-475 | The outcome of one request, with the receipt looked at before anything that may have changed since. |
| Agents.RepliesOnce | crates/gal-server/src/agent.rs:414-437 | Over any run of retries, refusals and failures, all successes for one request return the same receipt for the same content, and only the first writes a message. |
| Agents.CreatedIff | crates/gal-server/src/agent.rs:394-475 | In any run, a request that has not succeeded before writes its message if and only if every verdict is in its favour; without permission it writes nothing. |
| Agents.RetryAnswered | crates/gal-server/src/agent.rs:414-437 | In any run, once a request has succeeded, sending it again gets the same receipt and sending other content under its key is a conflict, whatever has changed about permissions since. |
| Limiting.RateLimiter.Take | crates/gal-server/src/limit.rs:89-124 | The table that drops idle entries gives the answer, and leads to the levels, of one that never drops any. |
| Limiting.RateLimiter.CheckCost | crates/gal-server/src/limit.rs:62-74 | An allowed call is charged its cost; a refused one is charged nothing. |
| Limiting.RateLimiter.WouldAllow | crates/gal-server/src/limit.rs:76-86 | Asking answers as a call of cost one would, and cannot be noticed afterwards. |
| Limiting.PrunedAlike | crates/gal-server/src/limit.rs:103-111 | Dropping entries idle for the eviction time cannot be noticed: their buckets were full. |
| Limiting.PeekChangesNothing | crates/gal-server/src/limit.rs:76-86 | In any run of calls, leaving out a call that only asks changes no later answer. |
| Limiting.WindowBound | crates/gal-server/src/limit.rs:1-13 | In any window of time a key is granted at most the capacity and the rate times the length of the window. |
| Limiting.LeftAlone | crates/gal-server/src/limit.rs:112-122 | A key not used for some time, whatever others do, is allowed a call if and only if its cost is within the capacity and within what it had plus the rate times that time. |
| Limiting.FullAtFirst | crates/gal-server/src/limit.rs:107-110 | A key never seen may spend a full bucket at once, and no more. |

## Left out

- JsLoops.JsCompose: takes the browser's numbers as exact, which they are below 2^53, and its `Infinity` as larger than any length; the server's saturation has no counterpart there.
- JsReverting.JsInvert: is stated for changes valid for the document, as is the server's inverse.
- Serving.ServerDoc.RollbackLast: once an op has repeated an embed, promises the fields and that a document is left, not which one the log gives.
- Serving.Replay: is stated for logs whose ops were valid when they were committed, which is what storage holds.
- Durable.LiveBlip.ApplyOp: after an op with an empty retain before an embed, promises the reply, the fields and the tables, but no longer that replaying the log gives the document; a seed with empty runs and its replay may take such an op differently (`Repeating.EmptyRunProtects`).
- Protocol.Convergence: covers refusals as leaving and joining again; resubmitting pending work after a resynchronisation is then an ordinary edit. The acknowledgement of a recognised replay, which carries an old revision, is covered by `Durable` and not by the state machine.
- Carets.TransformPosition: counts offsets without a machine-word bound.
- Keeping.EditsKept: says which edits were merged and moved into each op, not over which op each move was; that the moves are the right ones is what `Protocol.ClientDocument` and `Protocol.SubmissionMeans` say.
- Delivery.Fanout.Commit: follows one message; what a client makes of the messages it is sent is modelled in `Protocol`, for clients that stay in the wavelet.
- Client.BlipDoc.ApplyLocal: takes the edit from the editor as valid for the document shown.
- Membership.LiveWave.RemoveParticipant: keeps participants as a set; the order in which they are displayed is not modelled.
- Agents.Storage.CreateReply: takes the digest of a request body for the body; collisions of the hash are not modelled.
- Limiting.RateLimiter.Take: computes with exact tokens and seconds; floating-point rounding and the system clock are not modelled.
- Transforming a composition piecewise (`transform(compose(a1, a2), b)` against `transform(a2, transform(a1, b))`) is not a law of this engine, because an insert is moved before a delete; the protocol is proved one committed op at a time.
- The in-memory machine is assumed to hold its documents: content and inserted text together stay below the largest machine word.
- Concurrency inside the server: the lock of a wave serialises its commands, so each handler is one step; a wave that was evicted while a command waited for it is not modelled.
- Queues between server and client are reliable and in order while a connection lasts.
- Modes of a wave, names, titles, presence, inboxes, search, attachments, authentication and the HTTP and WebSocket plumbing: their verdicts enter as parameters where a handler depends on them.
- JSON encoding: attribute values and embeds are known up to equality, with null set apart.
- `diffText` of the browser: its suffix scan tests for the wrong half of a surrogate pair, and only the server's version is modelled.
