# A verified model of the messaging core

The repository talks to RabbitMQ through a vendored AMQP-CPP, the client library under
`pipelineutils/3rd_party/amqpcpp`, and runs conversion jobs that arrive as messages. This project
models the parts in which the difficult state lives and proves what the library and the service
promise, for every input, every run and every way in which octets, replies and events may be cut
and interleaved.

Each component comes in two forms. Its behaviour is a set of functions on values, and what it
promises is proved about those. Where the program works step by step, on objects, arrays, linked
Deferreds and loops, the same steps are written as classes and methods, and each method is proved
equal to its function. Octets are integers from 0 to 255; unsigned counters that may wrap are
reduced modulo their width.

| file | what it models |
|---|---|
| `Bytes.dfy`, `Options.dfy` | octet sequences, big-endian integers, optional values |
| `FieldCodec.dfy`, `FieldTheorems.dfy`, `FieldStreams.dfy`, `WireForms.dfy` | field values of AMQP 0-9-1, section 4.2.5.5: encoding, decoding of arbitrary octets, the loops over a moving offset |
| `MetaDataCodec.dfy` | the content properties and their flags, section 4.2.6.1 |
| `Frames.dfy`, `FrameRoundTrip.dfy`, `FrameForms.dfy` | serialisation of frames through both output buffers, and back; frames and property lists octet by octet |
| `Framing.dfy`, `Spelling.dfy`, `Receiving.dfy` | the incremental parser, and the TCP input buffer that never moves data |
| `Sending.dfy` | the TCP output queue and the connected state |
| `Content.dfy`, `Reassembly.dfy`, `Consumer.dfy` | splitting a message into frames, and putting it together again |
| `Transport.dfy` | serialisation, cutting, decoding and reassembly in one statement |
| `Pipeline.dfy`, `PipelineTheorems.dfy`, `Ledger.dfy`, `ChannelImpl.dfy` | the request pipeline of a channel over a linked chain of Deferreds |
| `Closing.dfy`, `ChannelStreams.dfy`, `ChannelIds.dfy`, `ConnectionImpl.dfy` | connection states, the two-step close, the frame queue, channel identifiers |
| `Confirms.dfy`, `ConfirmTheorems.dfy`, `ConfirmCloses.dfy`, `ConfirmJournal.dfy`, `ReliableThrottle.dfy` | publisher confirms: `Tagger`, `Throttle` and `Reliable` together |
| `ConnectionHandler.dfy` | the application's connection handler with its growing buffer |
| `JobQueue.dfy`, `JobStories.dfy` | the queue of the conversion service, and what becomes of every job |
| `Counterexamples.dfy` | concrete inputs for the laws that do not hold of every input |

`dafny verify dfyconfig.toml` checks everything.

## Assumptions

- The maximum frame size is at least eight, the size of an empty frame; publishing a body needs more than eight (`Content.PublishEndsIff`).
- Objects outlive the calls into them: no callback destroys a channel, a connection or a publisher.
- The broker is honest: it answers the synchronous frames of a channel in order, and confirms tags that are on the wire, perhaps some of them again. It may close a channel or a connection at any time, and the framing and decoding results are about arbitrary octets.
- In the pipeline and in the confirm window the channel is attached to a connection that accepts its frames. `Closing.dfy` models the refusals.
- Error callbacks issue no operations. Success callbacks issue as many as they like; the callbacks of confirms publish, close, flush and move the throttle.
- Floating-point numbers are opaque words of four or eight octets.
- Sockets take and deliver any number of octets, except that the socket of the application's handler takes at least one octet of what it is offered: `onData` repeats its write until all data went through the buffer. One launched process completes once.
- The frames of the handshake and the closing frames fit the maximum frame size that the connection agreed on.

## Where the code and its documentation disagree

The model follows the code.

- `Message::append` documents its result as "message is now complete". For a body that arrives in one frame it returns false (`Reassembly.AppendTellsIff`).
- `ConnectionImpl::parse` says that it does not parse in an error state, but `reportError` calls the overload of `fail` that leaves the state as it is. The next call raises the same error again (`Framing.ErrorRepeats`).
- `ConnectionImpl::close` sets its flag before it closes the channels, and `send` then refuses the close frame of every idle channel (`Closing.IdleChannelsStay`).
- `ConnectionImpl::setReady` assigns the connected state whatever the state was (`Closing.NothingMoreIff`).
- `Reliable::publish` stores the handler of a refused message under tag zero, where the next multiple confirm finds it (`ConfirmCloses.RefusedIsToldIff`), and where it keeps a single confirm from closing the channel (`ConfirmCloses.ConfirmClosesIff`, `ConfirmCloses.RefusedKeepsOpen`).
- `Tagger::onAck` closes the channel when nothing is unacknowledged, also when a callback of the same confirm has just done so. The second close fails, and its error goes to the same Deferred (`ConfirmCloses.ClosesTwiceSingleIff`, `ConfirmCloses.ClosesTwiceMultipleIff`). A repeated confirm closes it once more (`ConfirmCloses.RepeatClosesIff`).
- The loop of `ChannelImpl::publish` has no end when the maximum frame size is eight and the body is not empty (`Content.PublishEndsIff`).
- `TEMP_BUFFER_SIZE` is commented as one megabyte and written with the octal factor 024; it is 20480.
- A short string writes its length cast to one octet and then all of its text, so that more than 255 octets do not round-trip (`FieldTheorems.RoundTripIffFits`).
- `ExtFrame::totalSize` counts in 32 bits, and does not match what is written from 2^32 octets on (`Frames.TotalSizeIsExactIff`).
- `ConnectionImpl::add` has no end when there is no channel limit and all 65535 identifiers are in use (`ChannelIds.SearchEndsIff`); this is the one precondition of `ConnectionImpl.ConnectionImpl.Add` beyond the type of the limit.

## Model

| member | source | states |
|---|---|---|
| `PipelineTheorems.ReplyPairing` | pipelineutils/3rd_party/amqpcpp/include/amqpcpp/channelimpl.h:680-721 | In every run, with success callbacks that issue further operations: the k-th reply to a request completes the Deferred of that request, at most one synchronous frame is unanswered, and on an open channel the chain is the Deferred of that frame, then those of the queued frames, then those pushed while closing |
| `Ledger.RunFollowsLedger` | pipelineutils/3rd_party/amqpcpp/src/channelimpl.cpp:159-163 | In every run the channel does what was asked of it, callbacks included: the frames it accepted are those of the operations that came up to the first close, the Deferreds it made are those of all requests, each has the outcome of the ledger, and the chain holds those without one, with their callbacks |
| `Ledger.PerformDoes` | pipelineutils/3rd_party/amqpcpp/src/channelimpl.cpp:779-811 | An operation on a usable channel is exactly its one frame, a request is exactly one Deferred on any channel, and nothing else happens |
| `Ledger.NextAnswer` | pipelineutils/3rd_party/amqpcpp/include/amqpcpp/channelimpl.h:680-721 | What the broker answers next is the opening, then the first request without an outcome, and nothing once all have one |
| `Ledger.TakenUpToClose` | pipelineutils/3rd_party/amqpcpp/src/channelimpl.cpp:256-269 | In every ledger the operations in time are all that were asked for, up to the first close, and an operation of the application is always recorded |
| `PipelineTheorems.FifoAndSynchrony` | pipelineutils/3rd_party/amqpcpp/src/channelimpl.cpp:779-860 | In every run frames are handed over in call order, none while a synchronous frame is unanswered, a queue implies synchronous mode, nothing accepted is lost while the channel is open, and nothing follows a channel close |
| `PipelineTheorems.ExactlyOnce` | pipelineutils/3rd_party/amqpcpp/src/channelimpl.cpp:867-947 | In every run Deferreds complete in push order, each once, the rest being the chain; the event that closes the channel, a close-ok or an error, empties the chain |
| `PipelineTheorems.CallbackCommutes` | pipelineutils/3rd_party/amqpcpp/include/amqpcpp/channelimpl.h:703-718 | The next pointer is read after the callback: whatever the callback pushes, the outcome is as if the completed head had been taken off first |
| `PipelineTheorems.ReportSuccessPopsFirst` | pipelineutils/3rd_party/amqpcpp/include/amqpcpp/channelimpl.h:681-721 | A success report is a flush of the channel without its head, followed by the operations of the callback |
| `PipelineTheorems.PerformKeeps` | pipelineutils/3rd_party/amqpcpp/src/channelimpl.cpp:159-163 | An operation on an open, closing or closed channel keeps the pairing, the order and the lock step, and only a close on a usable channel changes the state |
| `PipelineTheorems.FlushKeeps` | pipelineutils/3rd_party/amqpcpp/src/channelimpl.cpp:828-860 | A flush keeps the pairing and the order, restores that a non-empty queue means synchronous mode, and touches neither the state nor the chain |
| `PipelineTheorems.ReplyPops` | pipelineutils/3rd_party/amqpcpp/include/amqpcpp/channelimpl.h:681-703 | The reply to an unanswered method finds the Deferred of that very method at the head of the chain |
| `PipelineTheorems.ReplyOpenKeeps` | pipelineutils/3rd_party/amqpcpp/include/amqpcpp/channelimpl.h:629-639 | The reply to the opening frame, with the flush and the ready callback it causes, keeps the pairing, the order and the lock step, and does not close the channel |
| `PipelineTheorems.ReplyCloseKeeps` | pipelineutils/3rd_party/amqpcpp/include/amqpcpp/channelimpl.h:648-670 | The close-ok completes the Deferred of the close with success, everything behind it with failure, and leaves the chain empty |
| `PipelineTheorems.ErrorHalts` | pipelineutils/3rd_party/amqpcpp/src/channelimpl.cpp:867-913 | An error fails everything pending, in order, drops the queue, and leaves the chain empty |
| `PipelineTheorems.HaltedStep` | pipelineutils/3rd_party/amqpcpp/src/channelimpl.cpp:785-792 | On a closed channel nothing is sent and nothing completes any more |
| `ChannelImpl.ChannelImpl.constructor` | pipelineutils/3rd_party/amqpcpp/src/channelimpl.cpp:103-134 | An attached channel has handed over its opening frame, has no Deferred, and both end pointers are null |
| `ChannelImpl.ChannelImpl.SendFrame` | pipelineutils/3rd_party/amqpcpp/src/channelimpl.cpp:779-811 | Refused when closed, accepted without sending when closing, queued when waiting, handed over otherwise |
| `ChannelImpl.ChannelImpl.Flush` | pipelineutils/3rd_party/amqpcpp/src/channelimpl.cpp:828-860 | The loop is the flush of the specification: frames leave from the front until one is synchronous |
| `ChannelImpl.ChannelImpl.Push` | pipelineutils/3rd_party/amqpcpp/src/channelimpl.cpp:140-153 | The Deferred is linked behind the newest one, or becomes the oldest |
| `ChannelImpl.ChannelImpl.PushFrame` | pipelineutils/3rd_party/amqpcpp/src/channelimpl.cpp:159-163 | The frame is sent first and the new Deferred is marked failed exactly on a closed channel |
| `ChannelImpl.ChannelImpl.Close` | pipelineutils/3rd_party/amqpcpp/src/channelimpl.cpp:256-269 | A usable channel sends the close and enters the closing state; otherwise only a Deferred is pushed |
| `ChannelImpl.ChannelImpl.PerformAll` | pipelineutils/3rd_party/amqpcpp/include/amqpcpp/channelimpl.h:703-707 | Operations issued from a callback extend the linked chain by new objects and nothing else |
| `ChannelImpl.ChannelImpl.ReportSuccess` | pipelineutils/3rd_party/amqpcpp/include/amqpcpp/channelimpl.h:681-721 | On the linked chain: flush, callback, next pointer, unchain; oldest and newest end up null together |
| `ChannelImpl.ChannelImpl.ReportError` | pipelineutils/3rd_party/amqpcpp/src/channelimpl.cpp:867-913 | On the linked chain: every Deferred ends failed and unlinked, and both end pointers are null |
| `ChannelImpl.ChannelImpl.ReportReady` | pipelineutils/3rd_party/amqpcpp/include/amqpcpp/channelimpl.h:629-639 | Ready unless already closing, then a flush and the callback |
| `ChannelImpl.ChannelImpl.ReportClosed` | pipelineutils/3rd_party/amqpcpp/include/amqpcpp/channelimpl.h:648-670 | Closed, then success for the head and failure for the rest |
| `ChannelImpl.ChannelImpl.ProcessReply` | pipelineutils/3rd_party/amqpcpp/include/amqpcpp/channelimpl.h:629-721 | A reply of an honest broker is the Reply step of a run |
| `ConfirmTheorems.ViewsAgreeIff` | pipelineutils/3rd_party/amqpcpp/include/amqpcpp/reliable.h:239-281 | In every run, with repeated confirms too: the handlers besides tag zero are those of the open and the queued tags; the counts of Reliable and Throttle are equal if and only if no handler is stored under tag zero, which ZeroHandlerIff describes event by event; last < current, so the subtraction does not wrap |
| `ConfirmTheorems.TagOrder` | pipelineutils/3rd_party/amqpcpp/src/throttle.cpp:121-158 | In every run whole messages reach the channel in tag order 1, 2, 3, ..., and the queue is exactly the rest |
| `ConfirmTheorems.WindowHolds` | pipelineutils/3rd_party/amqpcpp/src/throttle.cpp:76-96 | With a fixed throttle and no explicit flush, by the user or by a callback, at most throttle tags are open, and while a message waits exactly throttle are |
| `ConfirmTheorems.OneVerdict` | pipelineutils/3rd_party/amqpcpp/include/amqpcpp/reliable.h:54-174 | In every run the handler of a published tag has learnt one verdict, or none and is still stored |
| `ConfirmTheorems.ConfirmSettles` | pipelineutils/3rd_party/amqpcpp/include/amqpcpp/reliable.h:54-111 | A confirm of any tag on the wire, confirmed before or not, gives the verdict of the broker to the handler of the tag, or to all up to it, and leaves all other handlers, whatever callbacks publish |
| `ConfirmTheorems.ClosesWhenDone` | pipelineutils/3rd_party/amqpcpp/src/tagger.cpp:186-206 | In every run, with callbacks that publish, close, flush and move the throttle: the channel is closed only with everything sent and confirmed, and promptly when no handler is left |
| `ConfirmJournal.RunFollowsJournal` | pipelineutils/3rd_party/amqpcpp/include/amqpcpp/reliable.h:54-281 | In every run the publisher does what was asked of it, callbacks included: the messages with a tag are those published before the close, in order; handlers are told in the order of their tags, each the verdict of the broker, and do what their message says for it; those still stored are the handlers of the messages that were told nothing, each its own |
| `ConfirmJournal.ReportMatches` | pipelineutils/3rd_party/amqpcpp/include/amqpcpp/reliable.h:54-174 | A handler that is told runs the callback of its own message, the one for acks or the one for nacks |
| `ConfirmJournal.FramesCarryMessage` | pipelineutils/3rd_party/amqpcpp/src/tagger.cpp:145-176 | The frames of a message carry its tag, are a method, a header with its size and bodies, and the bodies make up its body |
| `ConfirmJournal.FlushBegins` | pipelineutils/3rd_party/amqpcpp/src/throttle.cpp:121-158 | A flush begins exactly as many messages as its maximum allows, all of them if that is zero |
| `ConfirmJournal.ConfirmRefills` | pipelineutils/3rd_party/amqpcpp/src/throttle.cpp:36-49 | A confirm begins exactly as many messages as the window then has room for |
| `ConfirmJournal.CallbacksActAsUsers` | pipelineutils/3rd_party/amqpcpp/include/amqpcpp/reliable.h:86-104 | What a callback asks for is done as if the application had asked for it |
| `ConfirmJournal.FailTells` | pipelineutils/3rd_party/amqpcpp/include/amqpcpp/reliable.h:180-205 | When the channel fails every stored handler is told, in the order of the tags, that its message is lost |
| `ConfirmCloses.ClosesOnce` | pipelineutils/3rd_party/amqpcpp/src/tagger.cpp:186-206 | As long as no callback closes and every confirm comes while a message is open, the channel is closed at most once |
| `ConfirmCloses.ClosesTwiceAtMost` | pipelineutils/3rd_party/amqpcpp/src/tagger.cpp:78-92 | And whatever the callbacks do, at most twice |
| `ConfirmCloses.ClosesTwiceSingleIff` | pipelineutils/3rd_party/amqpcpp/src/tagger.cpp:78-92 | On an open channel the confirm of one message, confirmed before or not, closes the channel twice if and only if close had not been called, its handler is the only one, and its callback calls close and publishes nothing |
| `ConfirmCloses.ClosesTwiceMultipleIff` | pipelineutils/3rd_party/amqpcpp/include/amqpcpp/reliable.h:83-110 | On an open channel the confirm of several messages up to any tag on the wire, confirmed before or not, closes the channel twice if and only if close had not been called, no handler is stored beyond the tag, the callback of the greatest tag that has one calls close before it publishes, and the callbacks of all others neither publish nor close |
| `ConfirmCloses.ConfirmClosesIff` | pipelineutils/3rd_party/amqpcpp/src/tagger.cpp:78-92 | After close, as long as the channel is open: a multiple confirm of any tag on the wire closes it if and only if no handler is stored beyond the tag, and a single one if and only if no other handler is stored, tag zero included, and the callback publishes nothing |
| `ConfirmCloses.RepeatClosesIff` | pipelineutils/3rd_party/amqpcpp/include/amqpcpp/reliable.h:66-68 | Once the channel is closed, a confirm of a tag confirmed before closes it once more, if and only if it is multiple or no handler is stored under tag zero |
| `ConfirmCloses.SweepCloses` | pipelineutils/3rd_party/amqpcpp/include/amqpcpp/reliable.h:83-104 | Whether the loop over the handlers up to any tag, with a handler of its own or not, closes the channel: by the callback of the last handler, or not at all |
| `ConfirmCloses.CallbackCloses` | pipelineutils/3rd_party/amqpcpp/src/tagger.cpp:186-206 | A callback closes the channel itself if and only if, flushes and throttles aside, it calls close first with no handler left; and it leaves no handler if and only if none was left and it publishes nothing |
| `ConfirmTheorems.FailResolvesAll` | pipelineutils/3rd_party/amqpcpp/include/amqpcpp/reliable.h:180-205 | After a channel error every published message has had exactly one verdict and nothing is tracked |
| `ConfirmTheorems.SendWhole` | pipelineutils/3rd_party/amqpcpp/src/tagger.cpp:145-176 | The frame-by-frame sends of one message send it whole or queue it whole |
| `ConfirmTheorems.AdvanceKeeps` | pipelineutils/3rd_party/amqpcpp/src/throttle.cpp:127-154 | A flush moves the queue a whole message at a time and keeps the views in agreement |
| `ConfirmTheorems.FlushLoopKeeps` | pipelineutils/3rd_party/amqpcpp/src/throttle.cpp:121-158 | A flush opens as many tags as it reports, stops at the maximum or at the end of the queue, and keeps the views in agreement |
| `ConfirmTheorems.ThrottleConfirmKeeps` | pipelineutils/3rd_party/amqpcpp/src/throttle.cpp:36-49 | Shrinking the window and refilling it keeps the views in agreement and the window full |
| `ConfirmTheorems.SweepKeeps` | pipelineutils/3rd_party/amqpcpp/include/amqpcpp/reliable.h:83-104 | The loop over the handlers ends with exactly the open tags up to the given one unhandled, though callbacks publish meanwhile |
| `ConfirmTheorems.PublishAgreesIff` | pipelineutils/3rd_party/amqpcpp/src/tagger.cpp:145-150 | Publishing keeps the two counts equal if and only if the publisher is not closing |
| `ConfirmCloses.RefusedIsToldIff` | pipelineutils/3rd_party/amqpcpp/include/amqpcpp/reliable.h:83-104 | A handler stored under tag zero is given the verdict of a confirm if and only if that is multiple |
| `ConfirmCloses.RefusedIsAcked` | pipelineutils/3rd_party/amqpcpp/include/amqpcpp/reliable.h:268-281 | A message refused after close is reported acked by the next multiple confirm, though nothing of it was sent |
| `ConfirmCloses.RefusedKeepsOpen` | pipelineutils/3rd_party/amqpcpp/src/tagger.cpp:78-92 | After a refused message the single confirm of the last one never closes the channel, whatever the callbacks do, though nothing is unacknowledged |
| `ConfirmCloses.ZeroHandlerIff` | pipelineutils/3rd_party/amqpcpp/include/amqpcpp/reliable.h:268-281 | A handler is stored under tag zero if and only if a message was published after close, by the user or by the callback of a confirm; a multiple confirm takes it away, and no other event does |
| `ConfirmCloses.RefusesIff` | pipelineutils/3rd_party/amqpcpp/include/amqpcpp/reliable.h:268-281 | A callback leaves a handler under tag zero if and only if one was there, or it publishes while closing or behind its own close |
| `Confirms.SweepShrinks` | pipelineutils/3rd_party/amqpcpp/include/amqpcpp/reliable.h:83-104 | Why the loop over the handlers ends: fewer tags up to the given one, or a refused message with shallower callbacks |
| `ReliableThrottle.Publisher.Publish` | pipelineutils/3rd_party/amqpcpp/include/amqpcpp/reliable.h:268-281 | The message gets the current tag and its handler is stored under it; after close, under tag zero; the window invariant is kept |
| `ReliableThrottle.Publisher.Send` | pipelineutils/3rd_party/amqpcpp/src/throttle.cpp:76-96 | Queued behind a queue or when the window is full and the tag is new, sent otherwise |
| `ReliableThrottle.Publisher.SendBody` | pipelineutils/3rd_party/amqpcpp/src/tagger.cpp:153-176 | The chunk loop sends exactly the body frames of the message |
| `ReliableThrottle.Publisher.Flush` | pipelineutils/3rd_party/amqpcpp/src/throttle.cpp:121-158 | The loop is the flush of the specification and returns how many messages it began |
| `ReliableThrottle.Publisher.ReliableConfirm` | pipelineutils/3rd_party/amqpcpp/include/amqpcpp/reliable.h:54-111 | The find-and-erase and the loop over the map, callbacks included |
| `ReliableThrottle.Publisher.ThrottleConfirm` | pipelineutils/3rd_party/amqpcpp/src/throttle.cpp:36-49 | The open tags shrink and the free room is filled from the queue |
| `ReliableThrottle.Publisher.Confirm` | pipelineutils/3rd_party/amqpcpp/include/amqpcpp/reliable.h:54-111 | For any tag on the wire, repeated or not: both layers and the deferred close; the window invariant is kept |
| `ReliableThrottle.Publisher.Close` | pipelineutils/3rd_party/amqpcpp/src/tagger.cpp:186-206 | A close is remembered, and done at once when nothing is unacknowledged |
| `ReliableThrottle.Publisher.ReportError` | pipelineutils/3rd_party/amqpcpp/include/amqpcpp/reliable.h:180-205 | Every handler is told in map order, and the tracking starts over |
| `FieldTheorems.RoundTripIffFits` | pipelineutils/3rd_party/amqpcpp/src/field.cpp:19-48 | For every nested field of less than 2^32 octets: decoding its encoding gives it back and consumes its size, if and only if every short string in it has at most 255 octets |
| `FieldTheorems.SizeIffClean` | pipelineutils/3rd_party/amqpcpp/src/table.cpp:142-163 | A decoded field reports at most the octets it was read from, and exactly those if and only if it has no repeated names or unknown tags |
| `FieldTheorems.TableConsumesDeclaredIffClean` | pipelineutils/3rd_party/amqpcpp/src/table.cpp:12-36 | On arbitrary octets below 2^32 a table that decodes consumes at least 4 plus its declared length, and exactly that if and only if what is nested in it has no repeated names or unknown tags |
| `FieldTheorems.ArrayConsumesDeclaredIffClean` | pipelineutils/3rd_party/amqpcpp/src/array.cpp:16-37 | The same for arrays |
| `FieldTheorems.DecodedIsWellFormed` | pipelineutils/3rd_party/amqpcpp/src/field.cpp:19-48 | Whatever decodes is well formed, with short strings that fit |
| `FieldTheorems.InsertKeepsOrder` | pipelineutils/3rd_party/amqpcpp/src/table.cpp:14-35 | Assigning to the map keeps the names sorted and distinct |
| `FieldTheorems.TableRoundTrip` | pipelineutils/3rd_party/amqpcpp/src/table.cpp:12-36 | A table is read back at any offset of any buffer and its size is consumed |
| `FieldTheorems.ArrayRoundTrip` | pipelineutils/3rd_party/amqpcpp/src/array.cpp:16-37 | An array is read back at any offset of any buffer and its size is consumed |
| `FieldTheorems.NumberValueRoundTrip` | pipelineutils/3rd_party/amqpcpp/include/amqpcpp/numericfield.h:63-87 | Every integer in range survives its big-endian two's complement form |
| `FieldTheorems.ItemsTotalIsCounter` | pipelineutils/3rd_party/amqpcpp/src/array.cpp:18-36 | The wrapping counter of a finished loop is the total it subtracted, modulo 2^32 |
| `FieldCodec.EncodedSize` | pipelineutils/3rd_party/amqpcpp/src/array.cpp:104-137 | size() is the number of octets fill() writes, for every value |
| `FieldCodec.LessIsStrictTotalOrder` | pipelineutils/3rd_party/amqpcpp/src/table.cpp:142-186 | The order of the map of names is a strict total order |
| `FieldStreams.DecodeTableFrom` | pipelineutils/3rd_party/amqpcpp/src/table.cpp:12-36 | The decode loop ends on arbitrary octets, even after its counter wraps, stays within the buffer, and is the decode function |
| `FieldStreams.DecodeArrayFrom` | pipelineutils/3rd_party/amqpcpp/src/array.cpp:16-37 | The same for arrays |
| `FieldStreams.DecodeFieldFrom` | pipelineutils/3rd_party/amqpcpp/src/field.cpp:19-48 | The dispatch on the type tag, moving the shared offset |
| `FieldStreams.InBuffer.NextData` | pipelineutils/3rd_party/amqpcpp/src/buffercheck.h:38-54 | A read past the end is refused without moving the offset, any other advances it |
| `FieldStreams.InBuffer.NextUint32` | pipelineutils/3rd_party/amqpcpp/src/inbuffer.cpp:78-87 | Four octets, most significant first |
| `FieldStreams.InBuffer.NextShortString` | pipelineutils/3rd_party/amqpcpp/include/amqpcpp/stringfield.h:73-80 | A length octet and that many octets |
| `FieldStreams.FillTable` | pipelineutils/3rd_party/amqpcpp/src/table.cpp:168-186 | The loop writes the length and every entry in map order |
| `FieldStreams.FillArray` | pipelineutils/3rd_party/amqpcpp/src/array.cpp:125-137 | The loop writes the length and every item in order |
| `FieldStreams.SizeOfEntries` | pipelineutils/3rd_party/amqpcpp/src/table.cpp:142-163 | The accumulating loop is the size of the entries |
| `FieldStreams.SizeOfItems` | pipelineutils/3rd_party/amqpcpp/src/array.cpp:104-119 | The accumulating loop is the size of the items |
| `FieldTheorems.InsertIsAssignment` | pipelineutils/3rd_party/amqpcpp/src/table.cpp:14-35 | Assigning to the map gives the name its value and leaves every other name as it is |
| `FieldTheorems.EntriesAreAssigned` | pipelineutils/3rd_party/amqpcpp/src/table.cpp:12-36 | Entries in any order, with names repeated or not, are read and assigned one after the other |
| `FieldTheorems.LastAssignmentWins` | pipelineutils/3rd_party/amqpcpp/src/table.cpp:14-35 | A map that was assigned entries is ordered, and every name has the value it was assigned last |
| `FieldCodec.LessAtFirstDifference` | pipelineutils/3rd_party/amqpcpp/src/table.cpp:142-186 | Names are in lexicographic order: the first octet that differs decides |
| `WireForms.NumbersOnTheWire` | pipelineutils/3rd_party/amqpcpp/src/field.cpp:28-45 | On any octets: the nine numeric tags, each with its width and sign, most significant octet first and in two's complement, and an error when the octets end too early |
| `WireForms.PlainOnTheWire` | pipelineutils/3rd_party/amqpcpp/src/field.cpp:28-45 | On any octets: booleans, floats, doubles and void by their tags |
| `WireForms.DecimalOnTheWire` | pipelineutils/3rd_party/amqpcpp/src/field.cpp:28-45 | On any octets: a decimal is its places and four octets of digits |
| `WireForms.ShortStringOnTheWire` | pipelineutils/3rd_party/amqpcpp/include/amqpcpp/stringfield.h:73-80 | On any octets: a length of one octet and as many of text |
| `WireForms.LongStringOnTheWire` | pipelineutils/3rd_party/amqpcpp/include/amqpcpp/stringfield.h:73-80 | On any octets: a length of four octets and as many of text |
| `WireForms.OtherTags` | pipelineutils/3rd_party/amqpcpp/src/field.cpp:46-47 | On any octets: any other tag is no field and consumes nothing more |
| `WireForms.ArrayOnTheWire` | pipelineutils/3rd_party/amqpcpp/src/array.cpp:16-37 | The tag of an array, its length in four octets, and its items |
| `WireForms.TableOnTheWire` | pipelineutils/3rd_party/amqpcpp/src/table.cpp:12-36 | The tag of a table, its length in four octets, and entries in any order: every name has the value that stands behind it last |
| `WireForms.SignedAreWritten` | pipelineutils/3rd_party/amqpcpp/include/amqpcpp/numericfield.h:63-87 | The signed numbers are written with their tags, in two's complement |
| `WireForms.UnsignedAreWritten` | pipelineutils/3rd_party/amqpcpp/include/amqpcpp/numericfield.h:63-87 | The unsigned numbers and timestamps are written with their tags |
| `WireForms.ScalarsAreWritten` | pipelineutils/3rd_party/amqpcpp/include/amqpcpp/stringfield.h:251-261 | The other fields that nest nothing are written with their tags |
| `WireForms.ArrayIsWritten` | pipelineutils/3rd_party/amqpcpp/src/array.cpp:125-137 | An array is written as its tag, the length of what follows, and its items with their tags |
| `WireForms.TableIsWritten` | pipelineutils/3rd_party/amqpcpp/src/table.cpp:168-186 | A table is written as its tag, the length of what follows, and names, tags and values |
| `MetaDataCodec.MetaRoundTripIff` | pipelineutils/3rd_party/amqpcpp/include/amqpcpp/metadata.h:140-159 | Properties are decoded as they were encoded, with their exact size, if and only if unflagged ones hold their defaults and flagged short strings fit |
| `MetaDataCodec.EditedMetaRoundTrips` | pipelineutils/3rd_party/amqpcpp/include/amqpcpp/metadata.h:214-296 | Properties touched only by setters and removers, with short strings that fit, always survive the wire |
| `MetaDataCodec.EditsKeepCanonical` | pipelineutils/3rd_party/amqpcpp/include/amqpcpp/metadata.h:214-296 | Any run of setters and removers keeps unflagged properties at their defaults |
| `MetaDataCodec.DecodedMetaIsCanonical` | pipelineutils/3rd_party/amqpcpp/include/amqpcpp/metadata.h:140-159 | Whatever octets are decoded, unflagged properties hold their defaults and short strings fit: together with the setters and removers, no property list of the program is outside the condition but by its own long strings |
| `MetaDataCodec.ReadMetaRoundTrips` | pipelineutils/3rd_party/amqpcpp/include/amqpcpp/metadata.h:140-159 | What was decoded from any octets, encoded again, is decoded the same |
| `MetaDataCodec.BitsRoundTrip` | pipelineutils/3rd_party/amqpcpp/include/amqpcpp/booleanset.h:119-160 | Eight flags survive their octet |
| `FrameForms.FlagsAnnounce` | pipelineutils/3rd_party/amqpcpp/include/amqpcpp/metadata.h:140-159 | Reading any octets: which bit of the two in front stands for which of the fourteen properties |
| `FrameForms.PropertiesAreWritten` | pipelineutils/3rd_party/amqpcpp/include/amqpcpp/metadata.h:374-395 | Writing: the same bits, and then the flagged properties in the order from content type to cluster id |
| `FrameForms.PropertyForms` | pipelineutils/3rd_party/amqpcpp/include/amqpcpp/metadata.h:374-395 | Ten properties are short strings, two are octets, one is a timestamp and one a table |
| `FrameForms.NoFlagsNoProperties` | pipelineutils/3rd_party/amqpcpp/include/amqpcpp/metadata.h:140-159 | Without flags nothing is read, and every property is empty or zero |
| `FrameForms.FlagsAreWritten` | pipelineutils/3rd_party/amqpcpp/include/amqpcpp/booleanset.h:119-160 | The first of eight flags is the lowest bit |
| `FrameForms.FlagsAreRead` | pipelineutils/3rd_party/amqpcpp/include/amqpcpp/booleanset.h:119-130 | A flag is read off its bit |
| `MetaDataCodec.EncodedMetaSize` | pipelineutils/3rd_party/amqpcpp/include/amqpcpp/metadata.h:346-395 | size() is the number of octets fill() writes |
| `MetaDataCodec.SizeOfMeta` | pipelineutils/3rd_party/amqpcpp/include/amqpcpp/metadata.h:346-368 | The sum in flag order, in 32 bits, is the size modulo 2^32 |
| `MetaDataCodec.DecodeMetaFrom` | pipelineutils/3rd_party/amqpcpp/include/amqpcpp/metadata.h:140-159 | The constructor, reading from the shared offset, is the decode function |
| `Frames.TotalSizeIsExactIff` | pipelineutils/3rd_party/amqpcpp/src/extframe.h:80-130 | totalSize() is the number of octets a frame writes modulo 2^32, end marker included, and so exact if and only if that is less than 2^32; a longer frame writes more |
| `Frames.Copy` | pipelineutils/3rd_party/amqpcpp/include/amqpcpp/copiedbuffer.h:65-89 | The copied form of a frame below 2^32 octets is the wire form, in a buffer of capacity totalSize() that is never exceeded |
| `Frames.PassThrough` | pipelineutils/3rd_party/amqpcpp/src/passthroughbuffer.h:61-126 | The pieces passed on, one after the other, are the wire form |
| `Frames.CopiedBuffer.Append` | pipelineutils/3rd_party/amqpcpp/include/amqpcpp/copiedbuffer.h:65-72 | Octets are appended within the capacity |
| `Frames.PassthroughBuffer.Append` | pipelineutils/3rd_party/amqpcpp/src/passthroughbuffer.h:76-89 | Small pieces are staged, large ones passed on behind what was staged; the order is kept and the index stays within 4096 |
| `Frames.FillContent` | pipelineutils/3rd_party/amqpcpp/src/basicheaderframe.h:56-67 | The content header writes class, weight, body size and properties |
| `Frames.FillConsume` | pipelineutils/3rd_party/amqpcpp/src/basicconsumeframe.h:62-73 | The consume frame writes its two names, flags and table |
| `Frames.FillFrame` | pipelineutils/3rd_party/amqpcpp/src/extframe.h:80-86 | Type, channel and payload size in front of the payload |
| `FrameRoundTrip.WireIsFound` | pipelineutils/3rd_party/amqpcpp/src/receivedframe.cpp:88-128 | In front of any stream, the serialised frame is found whole, with its type, channel, payload and size |
| `FrameRoundTrip.FrameRoundTripIff` | pipelineutils/3rd_party/amqpcpp/src/receivedframe.cpp:135-149 | A frame decodes to itself if and only if its names and properties survive |
| `FrameRoundTrip.ContentRoundTrip` | pipelineutils/3rd_party/amqpcpp/src/basicheaderframe.h:97-101 | A content header decodes to itself if and only if its properties do |
| `FrameRoundTrip.ConsumeRoundTrip` | pipelineutils/3rd_party/amqpcpp/src/basicconsumeframe.h:100-107 | A consume frame decodes to itself if and only if its names and table fit |
| `FrameForms.FramesAreWritten` | pipelineutils/3rd_party/amqpcpp/src/extframe.h:80-130 | A heartbeat, body, header or consume frame on the wire: type 8, 3, 2 or 1, channel, length, class 60 and method 20 with their fields, and the octet 206 |
| `FrameForms.HeaderIsWritten` | pipelineutils/3rd_party/amqpcpp/src/protocolheaderframe.h:47-80 | The protocol header is AMQP, 0, 0, 9, 1 |
| `FrameForms.FramesAreRead` | pipelineutils/3rd_party/amqpcpp/src/receivedframe.cpp:135-149 | What the types 2, 3, 4 and 8 are received as, by the octets of their payload, and that other types are an error |
| `FrameForms.ConsumeIsRead` | pipelineutils/3rd_party/amqpcpp/src/basicconsumeframe.h:100-107 | Class 60 and method 20 are received as a consume frame, field by field |
| `Spelling.ProcessedIsSpelled` | pipelineutils/3rd_party/amqpcpp/src/connectionimpl.cpp:120-165 | What a call has processed is the frames it handled, spelled out octet by octet, each within the maximum of its time; the connection is what these frames make of it, and behind them stands nothing that could be handled |
| `Spelling.SpelledIsParsed` | pipelineutils/3rd_party/amqpcpp/src/connectionimpl.cpp:120-165 | Frames spelled out in front of any octets are handled one by one, and then the rest is parsed |
| `Spelling.BadEndBreaks` | pipelineutils/3rd_party/amqpcpp/src/receivedframe.cpp:105-112 | A frame of allowed size that ends with any octet but 206 breaks the connection, with nothing processed behind it |
| `Spelling.FoundIffSpelled` | pipelineutils/3rd_party/amqpcpp/src/receivedframe.cpp:88-128 | A frame is found if and only if it is spelled out there, within the maximum |
| `Spelling.FindOnOctets` | pipelineutils/3rd_party/amqpcpp/src/receivedframe.cpp:88-128 | What is found on any octets: how many are needed, a frame too long, a wrong end, or the frame |
| `Spelling.ClosedParsesNothing` | pipelineutils/3rd_party/amqpcpp/src/connectionimpl.cpp:109-113 | A closed connection parses nothing |
| `Framing.ChunkingIndependenceIff` | pipelineutils/3rd_party/amqpcpp/src/connectionimpl.cpp:109-181 | Any cutting of a stream into calls handles the same frames and leaves the same octets as one call, if and only if, behind a closing frame, no frame is whole and none is broken |
| `Framing.ChunkingIsBracketed` | pipelineutils/3rd_party/amqpcpp/src/connectionimpl.cpp:109-181 | For every stream and cutting the frames handled lie between those up to the first close and those of one call, and all three close or none does |
| `Framing.ParseRefinesDeframe` | pipelineutils/3rd_party/amqpcpp/src/connectionimpl.cpp:120-165 | The loop is the frame-by-frame reference up to the first closing frame |
| `Framing.DeframeSplits` | pipelineutils/3rd_party/amqpcpp/src/connectionimpl.cpp:120-165 | The reference does not depend on where the stream is cut, with a maximum that Tune may change |
| `Framing.ErrorRepeats` | pipelineutils/3rd_party/amqpcpp/src/connectionimpl.cpp:155-163 | A framing error is a stop: the same octets raise it again on every later call and no later frame is handled |
| `Framing.CutAtTheClose` | pipelineutils/3rd_party/amqpcpp/src/connectionimpl.cpp:120-145 | When something stands behind a closing frame, the cut right there disagrees with one call |
| `Framing.FindIsStable` | pipelineutils/3rd_party/amqpcpp/src/receivedframe.cpp:88-128 | A frame or error once found is found whatever follows |
| `Framing.Connection.ParseBuffer` | pipelineutils/3rd_party/amqpcpp/src/connectionimpl.cpp:109-181 | The parse loop over the connection object, with the number of octets expected next |
| `Receiving.AllOrNothing` | pipelineutils/3rd_party/amqpcpp/src/linux_tcp/tcpinbuffer.h:91-145 | With reads capped at what is expected, also those that deliver nothing, a call consumes nothing or everything, and what stays buffered awaits the rest of one frame |
| `Receiving.ReadTracks` | pipelineutils/3rd_party/amqpcpp/src/linux_tcp/tcpconnected.h:154-183 | One read, of any number of octets, keeps the connection where the reference is after all octets received |
| `Receiving.TcpReader.ProcessReadable` | pipelineutils/3rd_party/amqpcpp/src/linux_tcp/tcpconnected.h:154-183 | The buffer, without moving data, tracks the reference; what is expected exceeds what is buffered and never the allocation, across reallocation at Tune |
| `Receiving.TcpInBuffer.ReceiveFrom` | pipelineutils/3rd_party/amqpcpp/src/linux_tcp/tcpinbuffer.h:91-114 | Octets are stored behind those in use |
| `Receiving.TcpInBuffer.Shrink` | pipelineutils/3rd_party/amqpcpp/src/linux_tcp/tcpinbuffer.h:141-145 | Changing only the size drops the front, for none or all of the octets |
| `Receiving.TcpInBuffer.Reallocate` | pipelineutils/3rd_party/amqpcpp/src/linux_tcp/tcpinbuffer.h:79-83 | The contents survive a change of capacity |
| `Sending.TcpOutBuffer.Add` | pipelineutils/3rd_party/amqpcpp/src/linux_tcp/tcpoutbuffer.h:140-147 | The chunk goes to the end |
| `Sending.TcpOutBuffer.Shrink` | pipelineutils/3rd_party/amqpcpp/src/linux_tcp/tcpoutbuffer.h:153-197 | Exactly the first octets are dropped, over empty chunks and a partial head, and the loop ends |
| `Sending.TcpOutBuffer.Fill` | pipelineutils/3rd_party/amqpcpp/src/linux_tcp/tcpoutbuffer.h:217-235 | At most the given number of chunks, the head without what is skipped |
| `Sending.TcpOutBuffer.SendTo` | pipelineutils/3rd_party/amqpcpp/src/linux_tcp/tcpoutbuffer.h:242-281 | However much the kernel takes each time, what was written and what is left together stay the same, and the loop ends only with the buffer empty or after a write that took nothing |
| `Sending.VectorsLead` | pipelineutils/3rd_party/amqpcpp/src/linux_tcp/tcpoutbuffer.h:217-235 | What is offered to the kernel stands at the front of the buffered octets |
| `Sending.TcpConnected.constructor` | pipelineutils/3rd_party/amqpcpp/src/linux_tcp/tcpconnected.h:99-109 | What was queued before the connection was made goes out first |
| `Sending.TcpConnected.ProcessWritable` | pipelineutils/3rd_party/amqpcpp/src/linux_tcp/tcpconnected.h:129-153 | Written plus buffered stays what was accepted, the write side is shut down only when closed and empty, and monitoring goes on exactly while octets are left |
| `Sending.TcpConnected.Send` | pipelineutils/3rd_party/amqpcpp/src/linux_tcp/tcpconnected.h:194-216 | Accepted unless closed; direct, partial or queued behind what is buffered |
| `Sending.TcpConnected.Close` | pipelineutils/3rd_party/amqpcpp/src/linux_tcp/tcpconnected.h:221-239 | The write side is shut down at once only if nothing is buffered |
| `Content.ChunksAreTheBody` | pipelineutils/3rd_party/amqpcpp/src/channelimpl.cpp:515-535 | The pieces together are the body, none is empty, none exceeds the maximum payload, all but the last are full |
| `Content.PublishEndsIff` | pipelineutils/3rd_party/amqpcpp/src/channelimpl.cpp:515-535 | The publish loop ends if and only if the body is empty or a frame has room for an octet of it |
| `Content.PublishFrames` | pipelineutils/3rd_party/amqpcpp/src/channelimpl.cpp:489-539 | Wherever the publish loop ends, it gives method frame, header and body frames, and no body frame exceeds the maximum frame size |
| `Reassembly.MessageArrives` | pipelineutils/3rd_party/amqpcpp/src/deferredreceiver.cpp:39-86 | Any body cut in any way is delivered once, after its last octet and not before |
| `Reassembly.MessagesArrive` | pipelineutils/3rd_party/amqpcpp/src/deferredreceiver.cpp:39-86 | Any sequence of messages is delivered in order, each once |
| `Reassembly.PublishedArrives` | pipelineutils/3rd_party/amqpcpp/src/channelimpl.cpp:489-539 | Reassembly undoes the publish split for every sequence of bodies and every maximum frame size above eight |
| `Reassembly.CompletesIff` | pipelineutils/3rd_party/amqpcpp/src/deferredreceiver.cpp:70-86 | With arbitrary body frames a message completes if and only if some number of them adds up to the announced size modulo 2^64 |
| `Reassembly.StrayFramesAreIgnored` | pipelineutils/3rd_party/amqpcpp/src/deferredreceiver.cpp:39-86 | Headers and bodies that no receiver waits for change nothing |
| `Reassembly.AppendTellsIff` | pipelineutils/3rd_party/amqpcpp/include/amqpcpp/message.h:95-130 | append() appends, and for every payload its result tells completeness if and only if the body did not come whole in one frame |
| `Consumer.Message.Append` | pipelineutils/3rd_party/amqpcpp/include/amqpcpp/message.h:95-130 | The buffer, its overflow guard and the borrowed single frame |
| `Consumer.Message.SetBodySize` | pipelineutils/3rd_party/amqpcpp/include/amqpcpp/message.h:78-87 | The announced size is stored |
| `Consumer.DeferredConsumer.ProcessDeliver` | pipelineutils/3rd_party/amqpcpp/src/deferredconsumer.cpp:21-32 | The channel installs the consumer, which starts a new message |
| `Consumer.DeferredConsumer.ProcessHeader` | pipelineutils/3rd_party/amqpcpp/src/deferredreceiver.cpp:39-63 | The countdown starts, and an empty body completes at once |
| `Consumer.DeferredConsumer.ProcessBody` | pipelineutils/3rd_party/amqpcpp/src/deferredreceiver.cpp:70-86 | The countdown goes down in 64 bits, and zero completes |
| `Consumer.DeferredConsumer.Complete` | pipelineutils/3rd_party/amqpcpp/src/deferredextreceiver.cpp:38-57 | The message is delivered, dropped, and the receiver uninstalled |
| `Transport.FramesArrive` | pipelineutils/3rd_party/amqpcpp/src/connectionimpl.cpp:109-181 | Any frames serialised one after the other and cut in any way are all handled, in order, and decode to what was written if and only if they survive |
| `Transport.MessagesTravel` | pipelineutils/3rd_party/amqpcpp/src/deferredreceiver.cpp:39-86 | Header and body frames of any sequence of messages, through serialisation, arbitrary cutting, decoding and reassembly, deliver all properties and bodies in order, each once |
| `Closing.CloseIsLast` | pipelineutils/3rd_party/amqpcpp/src/connectionimpl.cpp:246-304 | Whenever close() is called, a connection close on the wire is the last frame, the only one, with nothing queued, and was sent while no channel waited |
| `Closing.CloseIsSentWhenDue` | pipelineutils/3rd_party/amqpcpp/src/connectionimpl.cpp:172-177 | After any run in which the answers of the broker are followed by the end of their parse call, whatever the user does behind it: a connection that was told to close is still connected only while some channel waits |
| `Closing.EndOfBufferSendsIff` | pipelineutils/3rd_party/amqpcpp/src/connectionimpl.cpp:172-177 | After every run in which the opening is confirmed in time, the end of a parse call sends the close, alone, if and only if it was asked for, the connection is up and no channel waits |
| `Closing.NothingMoreIff` | pipelineutils/3rd_party/amqpcpp/src/connectionimpl.cpp:309-343 | Once closing or closed, nothing more is sent and it stays so, if and only if the opening is not confirmed again; a confirmation puts the connection back into service, and while it was closing sends a second close |
| `Closing.FramesKeepTheirOrder` | pipelineutils/3rd_party/amqpcpp/src/connectionimpl.cpp:382-434 | In every run frames leave in the order in which they were accepted, through the queue of the handshake |
| `Closing.SendQueuesUp` | pipelineutils/3rd_party/amqpcpp/src/connectionimpl.cpp:382-408 | An accepted frame goes to the end of the line, and handshake frames pass it by |
| `Closing.IdleChannelsStay` | pipelineutils/3rd_party/amqpcpp/src/connectionimpl.cpp:259-273 | Closing the connection closes the channels that wait; an idle one has its close refused and stays usable |
| `Closing.SetReadyKeeps` | pipelineutils/3rd_party/amqpcpp/src/connectionimpl.cpp:309-343 | Becoming ready empties the queue, whatever the callback asks for, and keeps the close last |
| `ChannelStreams.SendAcceptsIff` | pipelineutils/3rd_party/amqpcpp/src/connectionimpl.cpp:382-408 | A frame is accepted if and only if the connection is neither closing nor closed and, for channel frames, close() was not called and the frame fits; it goes out at once or to the end of the queue |
| `ChannelStreams.SendBufferAcceptsIff` | pipelineutils/3rd_party/amqpcpp/src/connectionimpl.cpp:415-434 | What a channel had queued is accepted if and only if the connection is up |
| `ChannelStreams.StreamsAreWanted` | pipelineutils/3rd_party/amqpcpp/src/channelimpl.cpp:779-811 | On a connection that nobody closes, before the handshake is done and after: what a channel was asked for, computed from the events alone, is what it has on the wire, in the queue of the handshake and in its own queue, in call order, each frame once |
| `ChannelStreams.AllOnTheWire` | pipelineutils/3rd_party/amqpcpp/src/channelimpl.cpp:828-860 | And once the connection is up and the channel waits for nothing, all of it is on the wire |
| `ChannelStreams.EarlyFramesGoOut` | pipelineutils/3rd_party/amqpcpp/src/connectionimpl.cpp:322-338 | Whatever is asked before the opening is confirmed waits in the queue, and stands on the wire in call order once it is |
| `ChannelStreams.FirstChannelOpens` | pipelineutils/3rd_party/amqpcpp/src/connectionimpl.cpp:395-407 | A channel made right behind the connection is usable, and its opening goes out with the confirmation |
| `ChannelStreams.FlushStream` | pipelineutils/3rd_party/amqpcpp/src/channelimpl.cpp:828-860 | An answered channel sends what it had queued, in order, up to the next synchronous frame |
| `ChannelStreams.AnswerSends` | pipelineutils/3rd_party/amqpcpp/src/channelimpl.cpp:828-860 | The answer a channel waited for sends exactly the frames up to the next that awaits one, and the channel then waits exactly if there was such a frame |
| `ChannelStreams.ChannelSendDoes` | pipelineutils/3rd_party/amqpcpp/src/channelimpl.cpp:779-811 | A frame of a channel waits behind others or an answer, or goes to the connection; a synchronous one makes the channel wait |
| `ChannelStreams.WaitingChannelsClose` | pipelineutils/3rd_party/amqpcpp/src/channelimpl.cpp:256-269 | A close of the connection ends every channel that waits, with its own close behind what it had queued |
| `ChannelStreams.CloseIsRemembered` | pipelineutils/3rd_party/amqpcpp/src/connectionimpl.cpp:246-281 | A close is always remembered, and goes out at once if and only if the connection is up and no channel waits |
| `ChannelStreams.HandshakeGoesOut` | pipelineutils/3rd_party/amqpcpp/src/connectionimpl.cpp:395-400 | The answers of the handshake go out at once, and Tune sets the maximum |
| `Closing.BrokerEnds` | pipelineutils/3rd_party/amqpcpp/src/connectionimpl.cpp:85-92 | Channels that are gone, and the answers to closes of the broker, which wait their turn |
| `ConnectionImpl.ConnectionImpl.Add` | pipelineutils/3rd_party/amqpcpp/src/connectionimpl.cpp:59-79 | Zero if and only if a positive limit is reached, otherwise the first unused non-zero identifier from the wrapping counter on |
| `ConnectionImpl.ConnectionImpl.MoveToFree` | pipelineutils/3rd_party/amqpcpp/src/connectionimpl.cpp:64-72 | The wrapping search ends while an identifier is free, and passes over none |
| `ChannelIds.SomeFreeIff` | pipelineutils/3rd_party/amqpcpp/src/connectionimpl.cpp:64-72 | An identifier is free if and only if fewer than 65535 are in use |
| `ChannelIds.SearchEndsIff` | pipelineutils/3rd_party/amqpcpp/src/connectionimpl.cpp:64-72 | From any position the search comes to a free identifier if and only if fewer than 65535 are in use; otherwise it goes on forever |
| `ChannelIds.NextFree` | pipelineutils/3rd_party/amqpcpp/src/connectionimpl.cpp:64-72 | The search, across the wrap-around, stops at the first identifier that is not zero and not in use |
| `ChannelIds.ReusedOnlyWhenAlone` | pipelineutils/3rd_party/amqpcpp/src/connectionimpl.cpp:75-78 | An identifier given back is given out next only when no other is free |
| `ChannelIds.IdsStayUnique` | pipelineutils/3rd_party/amqpcpp/src/connectionimpl.cpp:59-92 | In every run of additions, removals and limits, with identifiers from the wrapping search: the live identifiers are distinct and none is zero, and a search is endless only without a limit and with all 65535 in use |
| `ChannelIds.StepDoes` | pipelineutils/3rd_party/amqpcpp/src/connectionimpl.cpp:59-92 | What an addition, a removal and a new limit do to the live identifiers and to the counter |
| `ConnectionImpl.ConnectionImpl.Remove` | pipelineutils/3rd_party/amqpcpp/src/connectionimpl.cpp:85-92 | The channel is gone, and its identifier is one the search accepts again |
| `ConnectionImpl.ConnectionImpl.Send` | pipelineutils/3rd_party/amqpcpp/src/connectionimpl.cpp:382-408 | Refused when closing or closed, or for channel frames after close(); immediate or queued otherwise |
| `ConnectionImpl.ConnectionImpl.SendBuffer` | pipelineutils/3rd_party/amqpcpp/src/connectionimpl.cpp:415-434 | A frame queued by a channel needs only a connected state |
| `ConnectionImpl.ConnectionImpl.Close` | pipelineutils/3rd_party/amqpcpp/src/connectionimpl.cpp:246-281 | The loop closes every channel and counts the waiting ones; the close frame follows only without any |
| `ConnectionImpl.ConnectionImpl.WaitingChannels` | pipelineutils/3rd_party/amqpcpp/src/connectionimpl.cpp:364-375 | True if and only if some channel waits |
| `ConnectionImpl.ConnectionImpl.SetReady` | pipelineutils/3rd_party/amqpcpp/src/connectionimpl.cpp:309-343 | State, callback, queue, deferred close |
| `ConnectionImpl.ConnectionImpl.EndOfBuffer` | pipelineutils/3rd_party/amqpcpp/src/connectionimpl.cpp:172-177 | The deferred close at the end of parse |
| `ConnectionImpl.ConnectionImpl.ChannelReply` | pipelineutils/3rd_party/amqpcpp/src/channelimpl.cpp:828-860 | A channel flush through the connection |
| `ConnectionHandler.Reader.ReadChunk` | pipelineutils/modules/rabbitmq/src/connectionhandler.cpp:99-144 | Consumed plus buffered stays what was received until a grown buffer overflows; size, flag and capacity stay tied; the connection is where feeding the chunks to parse leads |
| `ConnectionHandler.Reader.HandleReadyRead` | pipelineutils/modules/rabbitmq/src/connectionhandler.cpp:97-145 | The loop takes all that is available, or gives up with a grown buffer |
| `ConnectionHandler.Reader.MakeRoom` | pipelineutils/modules/rabbitmq/src/connectionhandler.cpp:104-121 | The buffer grows once, by exactly what is missing, and the second time the read fails |
| `ConnectionHandler.Reader.GiveBack` | pipelineutils/modules/rabbitmq/src/connectionhandler.cpp:129-142 | A grown buffer shrinks by exactly what was consumed, down to its normal size, where it is normal again, and keeps what is buffered |
| `ConnectionHandler.Buffer.Write` | pipelineutils/modules/rabbitmq/src/buffer.cpp:13-24 | As much as fits is appended |
| `ConnectionHandler.Buffer.ShiftLeft` | pipelineutils/modules/rabbitmq/src/buffer.cpp:56-66 | Moving the octets in place drops the first ones |
| `ConnectionHandler.Buffer.Resize` | pipelineutils/modules/rabbitmq/src/buffer.cpp:26-29 | The contents survive |
| `ConnectionHandler.Writer.OnData` | pipelineutils/modules/rabbitmq/src/connectionhandler.cpp:147-155 | With a socket that takes at least one octet at a time, the loop ends and passes data of any size on, in order, through the fixed buffer |
| `JobQueue.QueueDiscipline` | src/PipelineRunnerPlugins/ConverterPlugin/Service/converterservice.cpp:48-118 | In every interleaving of submissions and the main thread: the queue is non-empty if and only if exactly one job is scheduled, handled or running; its front is never read empty; jobs end in submission order, each once, and every live one is told |
| `JobQueue.EveryJobEnds` | src/PipelineRunnerPlugins/ConverterPlugin/Service/converterservice.cpp:48-104 | After any interleaving, with nothing more submitted: as long as a job is left some step of the main thread or a completion is due, at most as many such steps are taken as there is work, and when none is due every submitted job has ended, in order |
| `JobQueue.WorkShrinks` | src/PipelineRunnerPlugins/ConverterPlugin/Service/converterservice.cpp:75-104 | Every step of the main thread and every completion lowers the work left, whatever fails; handles that die do not raise it |
| `JobStories.EveryJobHasItsStory` | src/PipelineRunnerPlugins/ConverterPlugin/Service/converterservice.cpp:75-180 | In every interleaving each ended job has one of five stories, in order: stopped by a handle found dead at one of three looks or by a failed preparation, or launched once, completed, and ended with the result of that completion |
| `JobStories.LaunchedIff` | src/PipelineRunnerPlugins/ConverterPlugin/Service/converterservice.cpp:75-118 | A job was launched, once, if and only if no look found its handle dead and its preparation did not fail; it was completed if and only if it was launched, and has no result otherwise |
| `JobStories.StepIsRecorded` | src/PipelineRunnerPlugins/ConverterPlugin/Service/converterservice.cpp:75-240 | The stories are true: a look tells whether the handle is alive, a preparation and a completion what they returned, a launch that a process runs |
| `JobStories.AliveJobsAreLaunched` | src/PipelineRunnerPlugins/ConverterPlugin/Service/converterservice.cpp:75-180 | A job whose handle lives and whose preparation succeeds has its process launched |
| `JobQueue.ConverterService.ProcessJobMessage` | src/PipelineRunnerPlugins/ConverterPlugin/Service/converterservice.cpp:48-67 | The job is queued, and a start is scheduled exactly for the first |
| `JobQueue.ConverterService.StartJob` | src/PipelineRunnerPlugins/ConverterPlugin/Service/converterservice.cpp:75-87 | The recursion over failing jobs is a run of steps of the main thread, with the looks and preparations as they turned out, and ends with the queue empty or one process running |
| `JobQueue.ConverterService.EndJob` | src/PipelineRunnerPlugins/ConverterPlugin/Service/converterservice.cpp:89-104 | The front job ends once with its result and is told if alive, and the next one is started: a run of steps of the main thread |
| `JobQueue.ConverterService.HandleProcessFinished` | src/PipelineRunnerPlugins/ConverterPlugin/Service/converterservice.cpp:222-240 | A completed process ends the job that was running, with its result |
| `Counterexamples.LongTextIsLost` | pipelineutils/3rd_party/amqpcpp/include/amqpcpp/stringfield.h:251-261 | A short string of 256 octets does not survive its own encoding |
| `Counterexamples.NestedArrayOverruns` | pipelineutils/3rd_party/amqpcpp/src/array.cpp:16-37 | An array that declares five octets and consumes six |
| `Counterexamples.HeartbeatBehindClose` | pipelineutils/3rd_party/amqpcpp/src/connectionimpl.cpp:120-145 | A heartbeat behind a close-ok is handled in one call and not in two |
| `Counterexamples.WholeBodyIsSilent` | pipelineutils/3rd_party/amqpcpp/include/amqpcpp/message.h:111-129 | A message completed by one frame for which append() says it is not complete |
| `Counterexamples.NoRoomForABody` | pipelineutils/3rd_party/amqpcpp/src/channelimpl.cpp:515-535 | With a maximum frame size of eight, a body of one octet is never sent |
| `Counterexamples.SecondMessageIsAcked` | pipelineutils/3rd_party/amqpcpp/include/amqpcpp/reliable.h:268-281 | Two messages, a close between them, one confirm: both handlers are acked |
| `Counterexamples.SecondMessageKeepsOpen` | pipelineutils/3rd_party/amqpcpp/src/tagger.cpp:78-92 | The same messages confirmed one by one: nothing is unacknowledged, and the channel stays open |
| `Counterexamples.CallbackClosesTwice` | pipelineutils/3rd_party/amqpcpp/src/tagger.cpp:78-92 | A callback that closes when its message is the last one: the channel is closed in the callback and again behind it |
| `Counterexamples.RepeatedConfirmClosesTwice` | pipelineutils/3rd_party/amqpcpp/src/tagger.cpp:78-92 | Two messages, the second confirmed, then both: the tag of the closing confirm has no handler any more, and the channel is closed twice |
| `Counterexamples.SecondConfirmClosesAgain` | pipelineutils/3rd_party/amqpcpp/src/tagger.cpp:78-92 | One message, a close, and two confirms of the message: each closes the channel |
| `Counterexamples.LongFrameIsAnnouncedShort` | pipelineutils/3rd_party/amqpcpp/src/extframe.h:80-130 | A consume frame whose queue name has 2^32 octets announces fewer octets than it writes |
| `Counterexamples.SearchGoesOn` | pipelineutils/3rd_party/amqpcpp/src/connectionimpl.cpp:64-72 | With all 65535 identifiers in use no turn of the search comes to a free one |
| `Counterexamples.IdleChannelIsForgotten` | pipelineutils/3rd_party/amqpcpp/src/connectionimpl.cpp:259-273 | A channel opened, an answer, a close of the connection: the connection is closing and the channel still usable |
| `Counterexamples.TwoCloses` | pipelineutils/3rd_party/amqpcpp/src/connectionimpl.cpp:309-343 | A second confirmation of the opening puts a second close on the wire |

## Left out

- Receiving.TcpReader.ProcessReadable: covers a connection up to its first protocol error or close; the state of the buffer after that is not described.
- ConnectionHandler.Reader.ReadChunk: does not describe the stream after the branch that gives the connection up, where octets already read from the socket are dropped.
- Framing.Connection.ParseBuffer: the effect of a frame is a parameter, a function of the frames handled so far; the dispatch to the single frame classes is not modelled, nor the deferred close at its end, which is `ConnectionImpl.ConnectionImpl.EndOfBuffer`.
- Consumer.DeferredConsumer.Complete: a message whose frames did not add up would show octets of the allocated buffer that were never filled; the model delivers only those that were.
- ReliableThrottle.Publisher.Publish: a publish on a channel that is no longer usable is not modelled; it would open a tag whose frames are refused.
- ConnectionImpl.ConnectionImpl.Close: channels are values inside the connection, known by their frames only; their Deferreds are in `ChannelImpl`, where sends do not fail.
- ConnectionImpl.ConnectionImpl.Add: asks for a free identifier when there is no limit; without one the source does not return (`ChannelIds.SearchEndsIff`), which a run of `ChannelIds` shows as a search that goes on.
- ConnectionImpl.ConnectionImpl.Send: the frames of the handshake and the closing frames are taken to fit the maximum frame size; only the size of channel frames is checked.
- ChannelImpl.ChannelImpl.constructor: attaching without an identifier left, and an opening frame that the connection refuses, are not modelled.
- ChannelImpl.ChannelImpl.SendFrame: the connection takes every frame; `Closing.Send` and `ConnectionImpl.ConnectionImpl.Send` model its refusals.
- ChannelImpl.ChannelImpl.Flush: does not model the early return after a frame that the connection refuses; that is `ConnectionImpl.ConnectionImpl.ChannelReply`.
- ChannelImpl.ChannelImpl.PushFrame: does not model a Deferred that fails because the connection refused its frame.
- ChannelImpl.ChannelImpl.Close: does not model a close frame that the connection refuses; `Closing.IdleChannelsStay` does.
- ChannelImpl.ChannelImpl.ReportError: leaves out the error callback of the channel itself and the removal of the channel from its connection.
- ReliableThrottle.Publisher.ReliableConfirm: confirms of tags never given out are not modelled; the loop up to such a tag need not end, as each callback may publish a message below it.
- Consumer.DeferredConsumer.ProcessHeader: a second header behind body octets of the same message is not modelled.
- ConnectionHandler.Writer.OnData: a write to the socket that takes nothing or reports an error is not modelled; the loop of `onData` ends only because the buffer gets room.
- Frames.Copy: covers frames below 2^32 octets, the only ones for which `Frames.TotalSizeIsExactIff` gives a capacity that suffices.
- Operations that break the rule of one reply per synchronous frame: `nowait` declarations, `reject` of several messages, `recover`, `get`.
- Failing sends in the channel pipeline. A Deferred made with a failed frame is chained all the same, and its error callback may run when it is registered and again when the chain fails.
- The other frame classes, which repeat the pattern of the modelled ones, and decoders that read past their own payload into the next frame.
- A deliver frame on the wire: in `Transport.MessagesTravel` each header is preceded by the step of the channel that a deliver frame causes, not by its octets.
- Destruction of objects inside callbacks, that is `Monitor` and `Watchable`.
- SSL states, name resolution, event loops, timers, heartbeats as a protocol, sockets and their errors beyond a number of octets.
- The arithmetic of decimal fields, printing of fields, address parsing and ordering.
- Qt plugins, configuration, file copying, the runner service, logging; a converter process that reports both an error and an end.
- 64-bit overflow of message tags: fewer than 2^64 messages are published.
