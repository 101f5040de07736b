# Verified model of the cockpit-to-X-Plane software

This project models, in Dafny, how cockpit hardware programs and the X-Plane plugin keep their copies of
simulator values ("datarefs") in step, together with the algorithms on the device side that lend themselves to
proof. Everything is proved for all inputs, all tables and all runs, not for samples of them.

`dafny verify dfyconfig.toml` checks the whole project.

## How it is built

**The subscription protocol.** The client library and the plugin each hold a table of slots. A slot goes through
the states UNINITIALIZED, ALLOC, LINK, VALID, DEALLOC and UNLINK; frames travel in both directions; the length of a
data frame is known only from the receiver's own table. The model has four layers, each joined to the next by a
theorem.

1. `Wire` is the byte format with the table-driven decoder of both sides.
2. `Dataref`, `ClientTable`, `ServerTable` (with `Simulator`) say on values what each operation does to a slot.
3. `XpClient.Client`, `XpConnection.Connection` and `XpServer.Server` are the programs: global tables changed in
   place, loops over byte buffers, twenty clients served in turn by one set of globals. Each method is proved equal
   to the function of layer 2 it runs, for every buffer content, well formed or not.
4. `Protocol` is the two-party transition system with one FIFO channel of frames in each direction. Its steps visit
   one slot or deliver one frame at a time, so every interleaving of the two programs is a run. `Cycles` proves that
   the byte-level calls of layer 3 are runs of it.

Below these layers stand the laws that say what their functions mean: `Layout` (which byte of a frame is what), `Floats`
(which number a bit pattern denotes, and what the change test tells apart), `Windows` (which elements of an array a slot
reads and writes), `Lookup` (which slot answers a call of `link_dataref`).

On top stand the safety and convergence theorems: `Framing` and `Unlinking` (what can be unlinked without losing step);
`Reassembly` (one call of the receive loop, with its buffer) and `Streams` (a whole stream over many calls); `Handshake`;
`Subscriptions` (which requests the plugin accepts); `Convergence`; `ReadOnly`; `Commands` (one-shot commands); `Holds` and `Relink` (held commands, counted as X-Plane sees them: by
command and not by slot); `Budget` (with the suppression bound); `FanOut`; and `Predictor` for the lookup cache of
`link_dataref`. `Limits` gives, for each condition they rest on, an input without it that breaks the promise.

**Dictionary and ini files.** `Dictionary.Dict` is the slot-array dictionary, proved to be a finite map. `Ini` models the
line formats and the printer as functions and proves the round trip; `IniRules` has what reading does beside that;
`IniParser` has the loops.

**Devices.** `Encoder` (input history of an Arduino as a queue of snapshots), `Spsc` (receive buffers shared by a reader
thread and the main loop), `Packing` (changed outputs in packets), `Median` (quicksort and the axis filter).

**Warp mesh.** `Mesh`: triangle list and padded triangle strip draw the same triangles.

## What the properties assume

The step predicate `Protocol.Sane` states what an application has to respect: a name is none of the texts with which the
plugin can refuse that very dataref (`ServerTable.Refusal`), `unlink_dataref` is called on valid slots only, and a table
stays below a million slots. That the condition on names is exact is `Limits.HandshakeFailsIffOwnRefusal`.

The framing theorem towards the client needs, in addition, that no value is in flight to a slot being unlinked
(`Framing.NoStray`). Which steps keep that is characterised exactly by `Framing.FramingKeptIffQuiet`; runs that unlink
nothing, or only commands and arrays too large to be sent, keep it without further conditions
(`Framing.FramingWithMuteUnlinks`), and unlinking anything else does not (`Unlinking.UnlinkIsSafeIffMute`).

For held commands the application has to unlink a command only after the last value sent was not 1, and not to write the
missing value over a 1 it has sent (`Holds.Releases`). Both conditions are exact (`Relink.UnlinkIsSafeIffReleased`,
`Relink.MissIsSafeIffReleased`).

A receiver takes in what was sent as long as no cut made by TCP inside a transmission falls behind four bytes that look
like its end, and no receive call fills its buffer before the end of a transmission (`Streams.HeardIffClean`).

## Where the code and its documentation differ

- `xpserver/README:118-122` gives an unlink request 104 bytes. The plugin, when it reads one, asks for four bytes more to
  be left in the buffer (`xpserver/src/handleclient.c:689`). The end marker provides them, so a request that is not the
  last thing in the buffer is accepted; the model follows the code.
- `xpserver/README:129` promises an error text for a refused unlink request. The code has none.
- `xparduino/src/libarduino.h:20` defines the message length without parentheses. The model uses the length meant.

## Results that are not what one would expect

- Unlinking while a value is on its way makes the client read the value as the start of the next frame
  (`UnlinkLosesFraming`, `StrayPayloadIsRead`), which can even end the connection (`StrayValueDisconnects`).
- The suppression error stays below the precision exactly as long as the scaled value fits a C `int`
  (`SuppressionBoundExact`).
- A transmission that ends in an unlink request can be one word longer than the send buffer (`UnlinkOverrunsByOneWord`).
  The end word is then written behind the buffer (`overrun` in `SendXpserver` and `SendClient`), and no receiver can take
  the transmission in (`UploadIsARun`, `DownloadIsARun`).
- Waiting transmissions that together fill the receive buffer before one of them ends at a cut are dropped, and the
  connection with them (`BacklogIsLost`): two of 600000 bytes are enough, though each fits (`TwoTransmissionsAreLost`).
- A refusal with a text that equals the name counts as a confirmation (`RefusalTakenForConfirmation`). There are such
  commands and datarefs: a name that repeats the first word of the text to the end of the field (`OwnRefusal`), and the
  texts that report a wrong type or a wrong number of elements (`ReportsAsNames`).
- Without analog outputs, the digital changes that do not fill a packet are never sent, though their flags are cleared
  (`WriteArduino`).
- Unlinking a held command is safe if and only if the last value the client sent was not 1 (`UnlinkIsSafeIffReleased`).
  Otherwise the next subscription, in whatever slot, can begin the command twice (`RelinkBeginsTwice`). So can writing the
  missing value and then 1 again (`MissIsSafeIffReleased`).
- Only commands, and arrays larger than the send buffer, can be unlinked at any time (`UnlinkIsSafeIffMute`): the value of
  every other dataref can change between `unlink_dataref` and the plugin's hearing of it.
- A digital input value that does not fit a character counts as changed whenever it is reported (`Encoder.Push`).
- A printed dictionary loses the keys whose section is missing (`OrphansAreLost`); without any section all keys come back
  under other names (`KeysWithoutSectionsMove`).
- Values within the noise of an axis at rest can move it, since they move the median: it is sure to stay only for values
  within half the noise (`FlickerIsSafeIff`).
- An encoder loses a snapshot exactly when the history is full and moves (`EachSnapshotOnce`).

## Model

| member | source | states |
|---|---|---|
| `Wire.WordRoundTrip` | libxpcockpit/src/handleserver.c:850-864 | an int put into a transmission is read back as the same signed 32-bit value |
| `Wire.ValsRoundTrip` | libxpcockpit/src/handleserver.c:1079-1081 | the elements of a data frame survive the way through the buffer, for every element width |
| `Wire.PadRoundTrip` | libxpcockpit/src/handleserver.c:866-867 | a name in its 100-byte field is read back up to its terminator |
| `Wire.NextOfBytes` | xpserver/src/handleclient.c:243-730 | decoding one expected frame followed by any further bytes gives that frame and exactly those bytes, on either side; only the plugin needs a word behind an unlink request |
| `Layout.WordBytes` | xpserver/README:57-145 | an int lies in four bytes, the lowest first, a negative one as its two's complement |
| `Layout.LinkBytes` | libxpcockpit/src/handleserver.c:850-869 | a link request is marker, type, element count, index, precision, and the two names in fields of 100 bytes, at these positions |
| `Layout.OtherBytes` | xpserver/src/handleclient.c:772-842 | a reply or an unlink request is a marker and a name in its field; the end of a transmission and of a connection are one word each |
| `Layout.DataBytes` | libxpcockpit/src/handleserver.c:1079-1081 | a data frame is a marker and its elements, element j at j widths behind it |
| `Layout.ElementBytes` | libxpcockpit/src/handleserver.c:1079-1081 | an element of one, four or eight bytes lies with its lowest byte first |
| `Layout.MissingBytes` | libxpcockpit/src/serverdata.h:22 | the missing value of whole numbers lies in memory as the int -2000000000 |
| `Dataref.NormaliseIsIdempotent` | xpserver/src/clientdata.c:50-109 | what the client's checks let through passes the plugin's checks unchanged: the descriptor is a fixed point |
| `Dataref.SuppressionBoundExact` | xpserver/src/handleclient.c:887-948 | every suppressed change is below 10^precision if and only if the scaled current value fits the cast to int |
| `Floats.SignNegates` | xpserver/src/handleclient.c:887-948 | setting the sign bit of a float or double negates its value |
| `Floats.ValueOrder` | xpserver/src/handleclient.c:887-948 | the values are ordered as the patterns below the sign bit are, and the other way round with it |
| `Floats.EqualValues` | xpserver/src/handleclient.c:887-948 | two patterns denote the same number if and only if they are equal or both a zero |
| `Floats.Anchors` | libxpcockpit/src/serverdata.h:22-24 | the patterns of zero, of one, and of the missing value -2000000000 |
| `Floats.ChangedIffPatternsDiffer` | xpserver/src/handleclient.c:890-892 | without a precision a value is sent if and only if some pattern has changed, and not from one zero to the other |
| `Floats.ChangedIffDifferent` | xpserver/src/handleclient.c:859-862 | a value of whole numbers is sent if and only if it differs |
| `Floats.UnitsAreNearest` | xpserver/src/handleclient.c:887-948 | what is compared is the multiple of the precision nearest to the value, away from zero in the middle |
| `Floats.FitsBelow` | xpserver/src/handleclient.c:887-948 | it fits the cast to int exactly below 2147483647.5 times the precision |
| `Floats.DiffersIff` | xpserver/src/handleclient.c:887-948 | with a precision two values are told apart if and only if their nearest multiples of it differ, where all beyond the range of int count as one |
| `Floats.PowersOfTen` | xpserver/src/handleclient.c:853-857 | the precision is a power of ten, with negative exponents too |
| `ClientTable.LinkWritesOneFreeSlot` | libxpcockpit/src/serverdata.c:335-468 | linking changes at most one slot, which was free or new; for a known type it is then live and waiting to be announced, for an unknown one it stays free |
| `Lookup.ChecksPass` | libxpcockpit/src/serverdata.c:227-267 | the checks pass exactly the requests that can be answered, and leave a precision to floating point types alone |
| `Lookup.LinkAnswers` | libxpcockpit/src/serverdata.c:269-468 | a call is answered if and only if it can be, and then with a slot that has the name, type, element count and index asked for |
| `Lookup.SameSlotIffSameRequest` | libxpcockpit/src/serverdata.c:269-311 | two calls get the same slot if and only if they ask for the same, whatever happens to the table in between, as long as the slot is not released |
| `ServerTable.SubscribeOutcome` | xpserver/src/handleclient.c:629-670 | a subscription ends confirmed, refused with an error text in place of the name, or unanswered; nothing else about the slot changes |
| `ServerTable.ErrorTexts` | xpserver/src/clientdata.c:317-409 | every refusal, cut to 100 bytes, is a non-empty terminated text beginning with one of three words |
| `ServerTable.DigitsDenote` | xpserver/src/clientdata.c:340-370 | the digits printed into a refusal denote the number |
| `ServerTable.LinkRequestAllocatesFirst` | xpserver/src/handleclient.c:629-670 | handling a link request is allocation followed, only if it succeeds, by the subscription checks |
| `ServerTable.ApplyIsLocal` | xpserver/src/handleclient.c:249-713 | a frame changes no slot but the one its marker names |
| `ServerTable.ApplyKeepsSim` | xpserver/src/handleclient.c:249-571 | received frames keep the simulator's values in the range of their types, and only data frames can call commands |
| `Protocol.DataFitsItsSlot` | xpserver/src/handleclient.c:249-263 | in a reachable state the next data frame for the plugin finds a valid slot of the sender's type and element count |
| `Protocol.ClientReceiveKeepsPhase` | libxpcockpit/src/handleserver.c:484-777 | whatever frame reaches the client, the pair of slots stays in one of the twelve phases of a subscription |
| `Protocol.ServerReceiveKeepsPhase` | xpserver/src/handleclient.c:243-730 | whatever frame reaches the plugin, the pair of slots stays in one of those phases |
| `Protocol.ClientSendKeepsPhase` | libxpcockpit/src/handleserver.c:837-1147 | so it does over a turn of the client's send loop, with any fill level of the buffer |
| `Protocol.ServerSendKeepsPhase` | xpserver/src/handleclient.c:765-1135 | and over a turn of the plugin's send loop |
| `Protocol.NextKeepsInv` | xpserver/README:57-145 | every step of application, programs, network and simulator keeps the invariant over all offsets |
| `Protocol.RunKeepsInv` | xpserver/README:57-145 | so does every run |
| `Protocol.ReachableInv` | xpserver/README:57-145 | every state reachable from empty tables satisfies the invariant |
| `Framing.ServerCodecRoundTrip` | xpserver/src/handleclient.c:238-730 | the plugin decodes a transmission into exactly the frames written, using every byte |
| `Framing.ClientCodecRoundTrip` | libxpcockpit/src/handleserver.c:480-777 | the client decodes a transmission into exactly the frames written, using every byte |
| `Framing.UpIsFramed` | xpserver/src/handleclient.c:249-263 | framing towards the plugin is never lost, not by unlinking and not by reconnecting |
| `Framing.DownIsFramedUnlessStray` | libxpcockpit/src/handleserver.c:490-703 | towards the client the decoder stays in step if and only if no data frame is in flight to an unlinked slot |
| `Framing.ReachableFraming` | xpserver/README:57-145 | in every reachable state the bytes in flight decode to the frames in flight, towards the client under exactly that condition |
| `Framing.FramingKeptIffQuiet` | libxpcockpit/src/serverdata.c:475-520 | a step keeps the stream to the client in step if and only if it is quiet |
| `Framing.QuietWhenUnchanged` | xpserver/src/handleclient.c:844-1126 | a turn of the plugin puts no value in flight to an unlinked slot that is mute (a command, or an array that does not fit the send buffer) or has not changed |
| `Framing.UnlinkingMuteIsQuiet` | xpserver/src/handleclient.c:844-857 | unlinking what is mute is quiet in every state, as no value of it is in flight |
| `Framing.DownDataFitsItsSlot` | libxpcockpit/src/handleserver.c:490-504 | a data frame about to reach the client finds a valid slot that both sides describe alike, with its type and element count, unless the slot has been unlinked |
| `Framing.QuietRunKeepsFraming` | libxpcockpit/src/handleserver.c:490-703 | over a run of quiet steps framing holds throughout |
| `Framing.CalmRunKeepsFraming` | libxpcockpit/src/serverdata.c:475-520 | so it does over every run that unlinks only commands and values at rest, and then leaves these values alone |
| `Framing.FramingWithMuteUnlinks` | libxpcockpit/src/handleserver.c:490-703 | from empty tables, over every run of links, writes, traffic, simulator changes and reconnections that unlinks only what is mute, the bytes in flight decode to the frames in flight |
| `Framing.FramingWithoutUnlinking` | libxpcockpit/src/handleserver.c:490-703 | in particular over every run without unlinking |
| `Unlinking.SomethingElse` | xpserver/src/handleclient.c:887-948 | for every type, precision and old element there is another that the change test tells from it |
| `Unlinking.UnlinkCanStray` | libxpcockpit/src/serverdata.c:488-503 | from every state, unlinking a dataref that is not mute can be followed by a change of the simulator's value and the plugin sending it to the unlinked slot |
| `Unlinking.UnlinkIsSafeIffMute` | libxpcockpit/src/serverdata.c:475-520 | after every run that unlinked only what is mute, unlinking a name keeps the stream to the client readable over all continuations of that kind if and only if every slot of the name is mute |
| `Reassembly.Collect` | xpserver/src/handleclient.c:150-236 | the receive loop takes pieces up to the first that leaves a terminator at the end or fills the buffer; it returns them joined, or drops them and reports a lost connection exactly if the buffer is full without a terminator |
| `Reassembly.OneTransmission` | libxpcockpit/src/handleserver.c:404-477 | a transmission arrives whole in one call if and only if it fits the buffer and no earlier cut falls behind four bytes equal to a terminator |
| `Streams.HeardIffClean` | xpserver/src/handleclient.c:150-730 | for any receiver and any cuts of a stream of whole transmissions, the frames performed are those sent if and only if no call overruns its buffer, each ends behind a whole frame, and none follows the end of the connection |
| `Streams.CleanReceives` | xpserver/src/handleclient.c:150-730 | and then the state of the receiver is the one those frames lead to |
| `Streams.ServerHearsIffClean` | xpserver/src/handleclient.c:150-732 | the plugin is such a receiver |
| `Streams.ClientHearsIffClean` | libxpcockpit/src/handleserver.c:404-803 | and so is the client, with its table reset behind the end of the connection |
| `Streams.GoodCutsAreClean` | xpserver/src/handleclient.c:150-236 | calls are clean if every cut that looks like the end of a transmission is one, and of any cuts a buffer apart one in between ends a transmission |
| `Streams.ChunkingIsInvisible` | xpserver/src/handleclient.c:150-732 | however TCP cuts a stream under these two conditions, the plugin performs exactly the frames sent |
| `Streams.ClientChunkingIsInvisible` | libxpcockpit/src/handleserver.c:404-779 | the same for the client |
| `Streams.BacklogIsLost` | xpserver/src/handleclient.c:153-166 | a backlog of a whole buffer without a cut behind a terminator performs no frame and ends the connection |
| `Streams.TwoTransmissionsAreLost` | libxpcockpit/src/handleserver.c:407-417 | such a backlog: two waiting transmissions of 600000 bytes |
| `Handshake.ValidMeansAgreed` | libxpcockpit/src/handleserver.c:705-735 | a slot valid at the client is valid and bound at the plugin, with the identical name, type, element count, index and precision |
| `Handshake.ReachableHandshake` | xpserver/src/handleclient.c:772-801 | that holds in every reachable state |
| `Handshake.FailedCheckPutsOut` | xpserver/src/handleclient.c:652-663 | a request whose check fails puts the slot among the refused or unanswered ones |
| `Handshake.RefusedNeverValid` | libxpcockpit/src/handleserver.c:705-735 | once there, no run without a new connection makes it valid |
| `Subscriptions.HasTypeIffInSet` | xpserver/src/clientdata.c:333 | a dataref with any set of types offers a view if and only if that is in the set |
| `Subscriptions.AcceptedIffOffered` | xpserver/src/clientdata.c:296-431 | from empty tables, for every type and type set, the handshake ends valid on both sides if and only if the simulator offers the dataref, and then with the description asked for, bound, and writable as the simulator says |
| `Subscriptions.SharedIsMade` | xpserver/src/customdata.c:133-271 | a shared dataref nobody has yet is made by its first subscription: writable, of the size asked for, all missing |
| `Subscriptions.SharedIsAgreed` | xpserver/src/customdata.c:105-131 | a later subscription to it has to ask for the same type and size, and is refused with a text that says so otherwise |
| `Subscriptions.NoMoreShared` | xpserver/src/customdata.c:133-160 | with all 150 entries taken no further one is made, and the request is not answered |
| `Subscriptions.AskingAgain` | xpserver/src/clientdata.c:111-175 | a request for a slot that carries its name and index already is checked again if it is the same, and ignored otherwise |
| `ReadOnly.NeverWritten` | xpserver/src/handleclient.c:263-496 | in every reachable state, no step but the simulator's own changes a dataref that it does not let anyone write |
| `Convergence.NoEchoToServer` | libxpcockpit/src/handleserver.c:506-697 | a value received from the plugin is not sent back |
| `Convergence.SendingSyncsDown` | xpserver/src/handleclient.c:859-1115 | any value the plugin sends starts the replay invariant, whatever was lost before |
| `Convergence.RunStaysSyncedDown` | libxpcockpit/src/handleserver.c:506-697 | over every run without writes by the client, the frames in flight replayed on its copy give the plugin's shadow wherever that is not the missing value |
| `Convergence.ReplayFromTheStart` | xpserver/src/handleclient.c:859-1115 | from empty tables, that holds in every state after the first value of the current connection, over runs that may reconnect |
| `Convergence.QuietLinkHasConverged` | xpserver/src/handleclient.c:859-1115 | with nothing in flight and nothing due, the client holds the shadow, and that is the simulator's value or within the precision of it |
| `Convergence.WindowMerges` | xpserver/src/customdata.c:347-475 | writing elements into the simulator and reading the window back gives the merge that leaves out missing values |
| `Windows.OneElement` | xpserver/src/handleclient.c:949-1040 | a slot for element j reads element j of the simulator's array, as the slot for the whole array does |
| `Windows.WholeArray` | xpserver/src/handleclient.c:949-1098 | a slot for the whole array reads it, with missing values (zeroes for bytes) behind its end |
| `Windows.WriteOne` | xpserver/src/handleclient.c:345-430 | a value written to element j is read back from it, and every other element reads as before |
| `Windows.WriteWhole` | xpserver/src/handleclient.c:345-430 | writing the whole array sets the elements that are there and not missing |
| `Windows.WriteNothing` | xpserver/src/handleclient.c:345-430 | a missing value, and one behind the end, write nothing |
| `Windows.WholeIsOneByOne` | xpserver/src/handleclient.c:345-430 | writing the whole array is writing its elements one by one |
| `Convergence.NoEchoToClient` | xpserver/src/handleclient.c:263-496 | a value taken from the client and passed to the simulator is not sent back |
| `Convergence.SendingSyncsUp` | libxpcockpit/src/handleserver.c:910-1088 | any value the client sends starts the replay invariant upwards |
| `Convergence.RunStaysSyncedUp` | xpserver/src/handleclient.c:263-496 | over every run in which only the client writes the dataref, the frames in flight lead the plugin's copy to the client's shadow and the simulator follows |
| `Convergence.WriterFromTheStart` | xpserver/src/handleclient.c:263-496 | from empty tables, through the plugin's first value to the client's first write: the client starts from what the plugin sent, and from its first value on that holds in every state |
| `Convergence.QuietWriterHasConverged` | libxpcockpit/src/handleserver.c:904-1022 | with nothing in flight and nothing due, the simulator holds what the application wrote or a value within the precision of it: the suppressed differences of both sides do not add up |
| `Commands.DeliveryFiresOnce` | xpserver/src/handleclient.c:497-528 | a delivered frame calls the command once if it carries 1 for a one-shot command, and not otherwise |
| `Commands.ExactlyOnce` | xpserver/src/handleclient.c:497-528 | over whole runs, calls plus requests in flight plus requests dropped by reconnecting equal the requests transmitted |
| `Commands.PendingIsSentOnce` | libxpcockpit/src/handleserver.c:1089-1110 | a pending 1 is transmitted by the first turn with room, and by no later one |
| `Commands.OnceStaysReady` | libxpcockpit/src/handleserver.c:1101-1102 | no step leaves a one-shot slot with 1 as its shadow, so a pending 1 is always due |
| `Holds.ConnectionHolds` | xpserver/src/handleclient.c:529-562 | over a whole connection no Begin of a command follows another one without an End in between, over all subscriptions of the command in whatever slots, if it is unlinked only after something else than 1 was sent and no missing value is written over a 1; the plugin's values tell whether a call is open |
| `Holds.FirstConnectionHolds` | xpserver/src/handleclient.c:529-562 | from empty tables, moreover, the command will be held, once all frames in flight have arrived, if and only if the client's shadow is 1 |
| `Holds.ReceivingKeepsFuture` | xpserver/src/handleclient.c:243-732 | delivering the frames in flight one by one makes the calls that were to come, and does not change the later ones |
| `Holds.AcceptanceStartsAChain` | xpserver/src/handleclient.c:660-663 | accepting a held command creates a state the alternation can start from |
| `Holds.NoSecondBegin` | xpserver/src/handleclient.c:529-562 | from an acceptance on, a log without a second Begin and without an open call stays one without a second Begin under the same condition |
| `Relink.RelinkBeginsTwice` | xpserver/src/handleclient.c:811-842 | whenever a command is unlinked that is held, or will be once the frames in flight have arrived, the connection can go on to a second Begin, whatever else is in the tables and channels and whatever slot the command gets next |
| `Relink.UnlinkIsSafeIffReleased` | libxpcockpit/src/serverdata.c:475-520 | from empty tables, unlinking a held command is safe, however the run goes on, if and only if the last value sent is not 1 |
| `Relink.MissIsSafeIffReleased` | xpserver/src/handleclient.c:532-544 | writing the missing value to a held command is safe, however the run goes on, under exactly the same condition |
| `Budget.ClientTransmissionSize` | libxpcockpit/src/handleserver.c:843-1154 | a client transmission with its end word is at most one word longer than the buffer, and fits it if its last frame is a link request or data |
| `Budget.UnlinkOverrunsByOneWord` | libxpcockpit/src/handleserver.c:881 | the excess occurs: a byte array that leaves exactly room for an unlink request |
| `Budget.ServerTransmissionSize` | xpserver/src/handleclient.c:770-1142 | the same bound for the plugin |
| `Budget.ClientEndFits` | libxpcockpit/src/handleserver.c:843-1154 | the end word of the client always fits as long as nothing is being unlinked |
| `Budget.ServerEndFits` | xpserver/src/handleclient.c:770-1142 | the end word of the plugin always fits as long as no subscription is being answered or ended |
| `Budget.ClientDefers` | libxpcockpit/src/handleserver.c:914-929 | a turn that writes nothing changes nothing, and what is due is the same at any later turn with room |
| `Budget.ServerDefers` | xpserver/src/handleclient.c:863-885 | the same for the plugin |
| `Budget.SuppressionNeverAccumulates` | xpserver/src/handleclient.c:853-948 | after any sequence of simulator states and turns, every element last transmitted is within 10^precision of the current one, where that fits the cast |
| `Budget.ClientSuppressionNeverAccumulates` | libxpcockpit/src/handleserver.c:904-1022 | the same for the client, after any sequence of values the application writes |
| `Predictor.PredictionIsFaithful` | libxpcockpit/src/serverdata.c:269-311 | with its predictor, link_dataref gives the answer and the table of the plain search, and keeps the cache in range and keys unique |
| `Predictor.CachedIsPlain` | libxpcockpit/src/serverdata.c:269-520 | so does everything else that happens to the table |
| `Predictor.PredictorChangesNoAnswer` | libxpcockpit/src/serverdata.c:272-299 | for every call history the answers with and without predictor are the same |
| `XpClient.Client.Search` | libxpcockpit/src/serverdata.c:269-299 | the predicted slot if it matches, the first matching slot otherwise, with the remembered successor updated only on a miss |
| `XpClient.Client.Create` | libxpcockpit/src/serverdata.c:335-466 | a new dataref takes the first free slot or one behind the last; with an unknown type the slot stays free and there is no answer |
| `XpClient.Client.Link` | libxpcockpit/src/serverdata.c:219-472 | link_dataref answers and stores what the plain search would; it answers exactly the requests that can be, with a slot that carries what was asked for |
| `XpClient.Client.Unlink` | libxpcockpit/src/serverdata.c:475-520 | exactly the slots carrying the name are released, and their number is returned |
| `XpClient.Client.SendTurn` | libxpcockpit/src/handleserver.c:839-1145 | the turn of one slot writes the frame the protocol prescribes, in full or not at all |
| `XpClient.Client.SendXpserver` | libxpcockpit/src/handleserver.c:812-1154 | the buffer holds exactly the frames of one cycle and as much of the end marker as fits, the flag tells whether the marker runs over, and the table is the one after these turns |
| `XpClient.Client.StoreElements` | libxpcockpit/src/handleserver.c:506-697 | received elements overwrite value and shadow alike, missing ones leave both, and a slot that is not valid stays as it is |
| `XpClient.Client.ResetAll` | libxpcockpit/src/handleserver.c:783-790 | after a lost connection exactly the named slots are to be subscribed again |
| `XpClient.Client.ReceiveXpserver` | libxpcockpit/src/handleserver.c:480-803 | whatever the bytes, the loop ends, the table stays valid, and it is the one the decoder of the protocol gives |
| `XpConnection.Connection.AllocateClientdata` | xpserver/src/clientdata.c:45-286 | the slot is checked, reused, refused or created as the protocol's allocation says, growing the table with empty slots |
| `XpConnection.Connection.CheckClientdata` | xpserver/src/clientdata.c:296-431 | the slot is bound if command or dataref exist with a fitting type and element count, and named by the error text otherwise; `Subscriptions` says what fits |
| `XpConnection.Connection.AllocateCustomdata` | xpserver/src/customdata.c:41-271 | a shared dataref is found, refused for differing, refused for lack of room, or registered with missing values |
| `XpConnection.Connection.LinkRequested` | xpserver/src/handleclient.c:629-670 | allocation, custom allocation and check together do what the protocol's link request does |
| `XpConnection.Connection.StoreElements` | xpserver/src/handleclient.c:345-496 | each element that is not missing goes to its position in the simulator's array and to the copy, and nothing else changes |
| `XpConnection.Connection.StoreFrame` | xpserver/src/handleclient.c:263-565 | values reach simulator and copy only if valid and writable; commands are called as their value says |
| `XpConnection.Connection.ReceiveUnlink` | xpserver/src/handleclient.c:684-713 | an unlink request is taken if one word more than its name is left, and the rest is discarded otherwise |
| `XpConnection.Connection.ReceiveClient` | xpserver/src/handleclient.c:238-732 | whatever the bytes, the loop ends, the connection stays valid, and it is the one the decoder of the protocol gives |
| `XpConnection.Connection.GetElements` | xpserver/src/handleclient.c:949-1098 | the elements at the positions the slot names, with missing values behind the end of the simulator's array |
| `XpConnection.Connection.IsChanged` | xpserver/src/handleclient.c:957-968 | true if and only if some element has moved by enough: for whole numbers if it differs, and without a precision if its pattern does, but for the two zeros |
| `XpConnection.Connection.SendAnswer` | xpserver/src/handleclient.c:772-842 | a confirmation makes a bound slot valid, a refusal and the end of a subscription release the slot, and without room nothing happens |
| `XpConnection.Connection.SendClient` | xpserver/src/handleclient.c:736-1142 | the same for the plugin, and nothing is sent if the client is gone |
| `XpServer.SomeSlotIsFree` | xpserver/src/xpserver.c:395-400 | with fewer connections than slots one slot is free |
| `XpServer.Server.Accept` | xpserver/src/xpserver.c:380-400 | the search never runs off the end; the new client takes the first free slot, and the count grows with it |
| `XpServer.Server.Drop` | xpserver/src/xpserver.c:457-466 | a lost client's slot is freed and its table emptied, and the count stays the number of occupied slots |
| `XpServer.Server.Turn` | xpserver/src/xpserver.c:424-473 | a turn exchanges data for its own client only and writes the globals back to its slot |
| `XpServer.Server.Callback` | xpserver/src/xpserver.c:380-474 | a callback is an accept and twenty turns, and the count is the number of occupied slots afterwards |
| `FanOut.OwnTurnOnly` | xpserver/src/xpserver.c:424-474 | a client's socket and table change in its own turn and in no other |
| `FanOut.LostIsForgotten` | xpserver/src/xpserver.c:457-466 | a client that is lost, or does not take what it is sent, is forgotten with its subscriptions, and any other stays |
| `FanOut.NobodyIsServed` | xpserver/src/xpserver.c:424-430 | a slot without a client receives nothing, is sent nothing, and changes nothing |
| `FanOut.QuietCallbackSyncs` | xpserver/src/handleclient.c:860-885 | after a callback that received nothing, every valid integer slot of every client has the simulator's value, unless its frame did not fit |
| `FanOut.QuietCallbackFansOut` | xpserver/src/xpserver.c:424-474 | two clients subscribed alike then hold equal values |
| `FanOut.ApplyKeeps` | xpserver/src/customdata.c:77-148 | no frame moves or reshapes an entry of the shared store |
| `FanOut.SharedStaysPut` | xpserver/src/customdata.c:77-148 | over one callback a shared dataref keeps its store slot and shape from its first subscription on |
| `FanOut.SharedStaysForever` | xpserver/src/xpserver.c:380-474 | and so over any number of callbacks, with the clients they accept and lose, and with whatever the simulator and other plugins write in between, as long as they keep its size |
| `Cycles.ClientCallIsARun` | libxpcockpit/src/handleserver.c:837-1147 | a send call of the client is one protocol step for each slot |
| `Cycles.ServerCallIsARun` | xpserver/src/handleclient.c:765-1135 | a send call of the plugin is one protocol step for each slot |
| `Cycles.OneCall` | xpserver/src/handleclient.c:150-236 | a transmission that fits the receive buffer is taken in by one call, and a longer one is lost with the connection |
| `Cycles.UploadIsARun` | libxpcockpit/src/handleserver.c:812-1154 | what the client writes into its buffer and the plugin collects in its own is a run of the protocol if the end word fits; if not, the plugin performs nothing and loses the connection |
| `Cycles.DownloadIsARun` | xpserver/src/handleclient.c:736-1142 | the same downwards, as long as no value is on its way to an unlinked slot |
| `Limits.HandshakeFailsIffOwnRefusal` | xpserver/src/clientdata.c:296-431 | some simulator makes the client accept what the plugin has refused if and only if the name is one of the texts that can refuse it |
| `Limits.SomeoneRefuses` | xpserver/src/clientdata.c:296-431 | each such text that is the name is the answer of some simulator |
| `Limits.OwnRefusal` | xpserver/src/clientdata.c:317-409 | the refusal of an unknown command or dataref equals the name exactly for the one name that repeats its first word to the end of the field |
| `Limits.RepeatedCommand` | xpserver/src/clientdata.c:317-320 | there is such a one-shot command |
| `Limits.RepeatedDataref` | xpserver/src/clientdata.c:405-409 | there is such an int dataref |
| `Limits.ReportsAsNames` | xpserver/src/clientdata.c:338-372 | the texts that report a wrong type or a wrong number of elements, too, are names that can be refused by themselves |
| `Limits.RefusalTakenForConfirmation` | libxpcockpit/src/handleserver.c:713-727 | whenever the plugin refuses with the wanted name itself, the client ends valid and the plugin released |
| `Limits.UnlinkLosesFraming` | libxpcockpit/src/serverdata.c:488-503 | unlinking right after the plugin has sent a value leaves a stray data frame in flight |
| `Limits.StrayPayloadIsRead` | libxpcockpit/src/handleserver.c:695-697 | its payload is then decoded as frames of its own |
| `Limits.StrayValueDisconnects` | libxpcockpit/src/handleserver.c:770-775 | one such value ends the connection |
| `Limits.DataMarkerRange` | libxpcockpit/src/handleserver.c:490-491 | on either side, the bytes of a data frame decode to that frame if and only if its offset is below a million |
| `Limits.PendingUnlinkIsNeverAnswered` | libxpcockpit/src/handleserver.c:785-790 | an unlink pending at a disconnect becomes a subscription the plugin never answers |
| `Limits.MissingValueBeginsTwice` | xpserver/src/handleclient.c:532-544 | writing 1, the missing value and 1 again begins a held command twice |
| `Limits.CrossingWritesDiverge` | libxpcockpit/src/handleserver.c:506-526 | writes of both sides in the same cycle are swapped and stay so |
| `Dictionary.DictionaryHash` | libxpcockpit/src/dictionary.c:94-110 | the loop computes the hash in 32-bit arithmetic, with signed characters |
| `Dictionary.HashOfA` | libxpcockpit/src/dictionary.c:94-110 | it is the hash of Jenkins: its value for one character |
| `Dictionary.MemDouble` | libxpcockpit/src/dictionary.c:44-55 | the copy keeps the contents and is zero behind them |
| `Dictionary.WriteSlot` | libxpcockpit/src/dictionary.c:269-280 | writing a free slot, or the slot of the key, is one update of the map and keeps keys unique |
| `Dictionary.ClearSlot` | libxpcockpit/src/dictionary.c:321-328 | clearing a slot removes exactly its key from the map |
| `Dictionary.OccupiedIsSize` | libxpcockpit/src/dictionary.c:255 | the entry count is the size of the map |
| `Dictionary.FreeSlot` | libxpcockpit/src/dictionary.c:254-275 | below the size there is a free slot |
| `Dictionary.Dict.Get` | libxpcockpit/src/dictionary.c:181-199 | the map's value, or the default for a missing key |
| `Dictionary.Dict.Double` | libxpcockpit/src/dictionary.c:257-266 | growing changes neither the map nor the count |
| `Dictionary.Dict.FindEmpty` | libxpcockpit/src/dictionary.c:269-275 | the search for an empty slot never runs off the end |
| `Dictionary.Dict.Set` | libxpcockpit/src/dictionary.c:227-282 | exactly the key's value is set, whether or not the dictionary has to grow |
| `Dictionary.Dict.Unset` | libxpcockpit/src/dictionary.c:295-330 | exactly the key is removed, and a missing key changes nothing |
| `Ini.SectionIsReadBack` | libxpcockpit/src/iniparser.c:475-480 | a printed section header is parsed as that section |
| `Ini.PairIsReadBackIffSafe` | libxpcockpit/src/iniparser.c:481-507 | a printed pair is parsed as that key and value, for any width of the printed key, if and only if the value is trimmed, has no comment character and no quotes the parser would take off |
| `Ini.DumpThenLoad` | libxpcockpit/src/iniparser.c:213-251 | loading what was printed gives back the same map, for every dictionary whose keys have their sections and whose lines can be read back |
| `Ini.NoSectionsNoKeys` | libxpcockpit/src/iniparser.c:223-232 | such a dictionary without sections is empty |
| `Ini.OrphansAreLost` | libxpcockpit/src/iniparser.c:234-247 | with sections, what is loaded is the dictionary without the keys whose section is missing: each is lost, and nothing else |
| `Ini.KeysWithoutSectionsMove` | libxpcockpit/src/iniparser.c:223-232 | without sections every key comes back with a colon in front, so only the empty dictionary survives |
| `IniRules.CaseIsIgnored` | libxpcockpit/src/iniparser.c:483-504 | lines that differ in the case of their key alone are read alike |
| `IniRules.LowerIsByLetter` | libxpcockpit/src/iniparser.c:51-65 | each capital letter becomes its small letter and nothing else changes |
| `IniRules.LinesAreJoined` | libxpcockpit/src/iniparser.c:581-590 | a line that ends in a backslash is read as one with the next line |
| `IniRules.CommentsAreIgnored` | libxpcockpit/src/iniparser.c:468-473 | blank lines and comments change nothing |
| `IniRules.EntriesAreKept` | libxpcockpit/src/iniparser.c:593-617 | entries are kept under section and key, the later one of two, and of the lines that make no sense only those behind the last entry count |
| `IniRules.LongLineLoadsNothing` | libxpcockpit/src/iniparser.c:563-574 | a line longer than the buffer fails the whole file |
| `IniParser.Strstrip` | libxpcockpit/src/iniparser.c:81-99 | exactly the white space at both ends is removed |
| `IniParser.Strlwc` | libxpcockpit/src/iniparser.c:51-65 | every character is lowered |
| `IniParser.IniparserLine` | libxpcockpit/src/iniparser.c:455-513 | the kind of the line, and its section or key and value, are those of the formats tried in order |
| `IniParser.GetNsec` | libxpcockpit/src/iniparser.c:119-134 | the number of keys without a colon |
| `IniParser.GetSecname` | libxpcockpit/src/iniparser.c:150-170 | the n-th of them, in slot order |
| `IniParser.DumpIni` | libxpcockpit/src/iniparser.c:213-251 | the text printed is the sections in slot order, each with its pairs in slot order |
| `IniParser.IniparserLoad` | libxpcockpit/src/iniparser.c:529-631 | the dictionary holds what the lines say, and none is returned after a line too long or an error in the last entry |
| `IniParser.DumpAndLoad` | libxpcockpit/src/iniparser.c:213-631 | printing and loading on the real arrays gives a dictionary with the same map |
| `Mesh.CreateList` | warpblend/src/create_warpmatrix.c:33-95 | the list fills its storage exactly, six vertices for each grid rectangle, each with the screen and texture coordinates of its grid point |
| `Mesh.CreateStrip` | warpblend/src/create_warpmatrix.c:97-183 | the strip fills its storage exactly, in bounds, with the padding between rows, each vertex with the coordinates of its grid point |
| `Mesh.SameMeshUpTo` | warpblend/src/create_warpmatrix.c:108-182 | up to every vertex, the strip has drawn the list's triangles in order, and padding drew none |
| `Mesh.StripIsList` | warpblend/src/create_warpmatrix.c:33-183 | for every grid of at least two by two points both forms draw the same triangles in the same order |
| `Encoder.Board.Receive` | xparduino/src/libarduino.c:124-146 | a value that differs from the character kept pushes one snapshot, with its last eight bits, onto the queue the matrix represents; any other pushes nothing |
| `Encoder.CharKeeps` | xparduino/src/libarduino.h:53 | what fits a character is kept, and the rest modulo 256 |
| `Encoder.Board.Reset` | xparduino/src/ini.c:226-247 | the end of a cycle pops one snapshot |
| `Encoder.Board.ReadDirection` | xparduino/src/libarduino.c:607-678 | the direction read is the one between the oldest unread snapshot and its predecessor, and none from a full history |
| `Encoder.Board.EncoderInput` | xparduino/src/libarduino.c:584-709 | the value moves by that direction, faster with more snapshots waiting, and by nothing if it is missing |
| `Encoder.StepMovesValue` | xparduino/src/libarduino.c:640-684 | a step up raises the value by the multiplier, and more with more changes waiting; a step down lowers it by as much |
| `Encoder.UnknownIsNoMove` | xparduino/src/libarduino.c:607-620 | inputs not known yet, and unchanged ones, give no direction |
| `Encoder.UnknownCountsAsUnchanged` | xparduino/src/libarduino.c:622-634 | an input that was not known before counts as unchanged |
| `Encoder.EachSnapshotOnce` | xparduino/src/libarduino.c:607-616 | one read a cycle compares every consecutive pair of snapshots once and in order if and only if the history is never full when it moves |
| `Encoder.GrayMoves` | xparduino/src/libarduino.c:649-678 | a single input change moves a Gray encoder by its direction around the cycle; an optical one counts every other of these steps, the other way round |
| `Encoder.TurnsAddUp` | xparduino/src/libarduino.c:649-678 | over any number of changes the directions add up to the change of position modulo a full cycle |
| `Encoder.CountFollowsTheShaft` | xparduino/src/libarduino.c:584-709 | over every run that keeps up, what was read adds up to how far the shaft has turned |
| `Spsc.Buffer.Append` | xpleo/src/hidapi_interface.c:60-65 | the reader's critical section puts the packet behind the contents |
| `Spsc.Buffer.Take` | xpleo/src/hidapi_interface.c:120-131 | the main loop's critical section takes the head off and keeps the rest in order |
| `Spsc.NextKeepsInv` | xpleo/src/hidapi_interface.c:53-72 | what was tested outside the lock still holds inside it, for reports and for packets of any size |
| `Spsc.EveryInterleaving` | xparduino/src/handleudp.c:108-144 | under every interleaving of the two threads the fill level stays in range and nothing is lost, doubled or reordered |
| `Spsc.FromTheStart` | xparduino/src/libarduino.c:85-98 | from the empty buffer: consumed bytes followed by buffered ones are the accepted ones, whole messages come out, and whole reports lie in the buffer |
| `Spsc.ReportsMustHaveOneSize` | xpleo/src/hidapi_interface.c:119 | on packets smaller than a message the test for anything at all would take what is not there |
| `Median.Partition` | xpleo/src/libleo.c:239-265 | the part is permuted so that the element at the returned index separates smaller from larger ones |
| `Median.Quicksort` | xpleo/src/libleo.c:267-278 | the part is permuted in place and sorted, the rest untouched |
| `Median.SixthSmallestIsUnique` | xpleo/src/libleo.c:808-810 | a history has only one sixth smallest value |
| `Median.Axis.HistoryMedian` | xpleo/src/libleo.c:808-810 | the threshold is the sixth smallest of the ten values in the history |
| `Median.Axis.Receive` | xpleo/src/libleo.c:797-834 | an initialised axis keeps its value within noise of the sixth smallest value in its history and takes any other; before that it takes every value; the value is put in front of the history |
| `Median.LastTen` | xpleo/src/libleo.c:828-832 | after any sequence of values the history is the last ten, newest first |
| `Median.InitialisedAfterFive` | xpleo/src/libleo.c:815-826 | the threshold is still the initial value if and only if fewer than five values have come |
| `Median.FlickerStaysPut` | xpleo/src/libleo.c:803-822 | as long as history and new values lie within noise of each other, the axis does not move over any run |
| `Median.FlickerIsSafeIff` | xpleo/src/libleo.c:803-822 | an axis at rest never moves for values within r of it if and only if noise is at least twice r |
| `Packing.Short` | xparduino/src/libarduino.c:198-199 | a value that fits 16 bits is sent unchanged, any other modulo 65536 |
| `Packing.EachChangeOnce` | xparduino/src/libarduino.c:190-203 | the changes listed are exactly the changed outputs with their values, each once and in order |
| `Packing.Board.WriteDigital` | xparduino/src/libarduino.c:188-215 | full packets sent and the rest in the buffer together hold the digital changes, and all flags are cleared |
| `Packing.Board.WriteArduino` | xparduino/src/libarduino.c:177-244 | the packets hold the digital and then the analog changes, all but the last are full, none is empty, no flag stays set, and every change is sent if and only if there is an analog output or the digital changes fill their packets |

## Left out

- Sockets, `connect`, `select`, error codes, beacon discovery, logging, send and receive statistics (`nsend`, `nrecv`, `received`, `numlink`), menus and windows, and all USB, X11, NVIDIA and joystick calls. A socket is what arrives, nothing, or a lost connection; a failing send is a parameter of the plugin's turn.
- The simulator is a map from name and type to elements, a set of commands and a log of command calls; that log's slot numbers are there for the statements only. Other plugins are a step that changes anything but the log.
- Reconnecting is one step on both sides at once; the frames it drops are recorded in `lost`, and all frames ever sent in `sent`, for the counting theorems only.
- Memory: allocation never fails, and slots that `realloc` leaves uninitialised are empty (`xpserver/src/clientdata.c:175-187`). Confirmations and unlink requests for offsets beyond the table are ignored, and a slot without storage takes no values, where the C code would go out of bounds.
- Buffers with fewer than four bytes left end the decoding. A 100-byte name field without a terminator counts as no name. Of an end word that does not fit the send buffer, only the part inside it is written; what lies behind the buffer is not modelled.
- Byte order is little endian. The client's own name is sent but not kept by the plugin.
- A slot that `link_dataref` takes for an unknown type is left empty when it is new, where the C code leaves it uninitialised. The predictor switched off is the plain search.
- Floating point: values are bit patterns read as reals for the change test, with scale and product exact; infinities and NaN read as finite numbers. A scaled value that does not fit `int` becomes the lowest one, as on x86.
- Relink.RelinkBeginsTwice: supposes that no command is among the shared datarefs (`Relink.Plain`), which holds in every run that starts without one, since `allocate_customdata` refuses commands.
- Holds.ConnectionHolds: for one connection; what a reconnection leaves open is the plugin's, which ends no command by itself.
- Ini.DumpThenLoad: for a whole file the condition is sufficient; that it is also necessary is proved line by line, for values (`Ini.PairIsReadBackIffSafe`).
- Custom datarefs are a list of at most 150 entries; removing them when the plugin stops is not modelled.
- Convergence.RunStaysSyncedUp: supposes that the simulator has all elements of the slot (`Room`); elements it does not have cannot converge.
- Ini files: the contents are a parameter instead of a file, characters are those of the C locale, and a section header longer than a line never occurs because lines have at most 1023 characters. Printing a missing string writes `(null)`.
- Accessors of the ini files, menu-driven dictionary printing, and the copies of both files in `xpserver/src`.
- Encoder: the analog inputs' history, the device search by address, and the other encoder readers. Values are reals.
- Mesh: colours and the projection that computes the grid; the second texture coordinate differs between list and strip, as in the code, and is not part of the triangles compared.
- Packing: the packet header, the four-byte layout of entries (an output's number is sent as one byte), and sending itself.
- Threads: the model of the shared buffer has one reader and one main loop, whose steps are the test and the critical section. Fill levels are read whole.
- Aircraft detection, the cockpit panel modules, weather radar, blending, GPIO and the Python tools.
