# Verified model of the c-runtime

A Dafny 4.11 model of the hard core of c-runtime, the robot runtime that connects lowcar devices, student
code and the network, with proofs about it. `dafny verify dfyconfig.toml` checks everything.

## What is modelled

**The shared-memory device block** (`shm_wrapper/shm_wrapper.c`), in two forms that are proved to agree.

- `ShmBlock` is the block as a class with one method per public call, each tied to a function on block
  values. `ShmHistory` proves what holds after every history of whole calls: a device connects clean, and a
  subscription change is reported exactly once. These claims take each public call as one step.
- `ShmProtocol` is the same calls as instruction lists whose single steps are one semaphore operation, one
  parameter copy, one bitmap update or one unguarded look at the catalog. `ShmDiscipline` proves the locking
  discipline of every program; `ShmExecution` runs any number of threads in any interleaving and proves
  mutual exclusion and absence of deadlock; `ShmSerial`, `ShmReads` and `ShmTheorems` prove that every
  execution acts on each stream as if whole calls ran one at a time in semaphore order, that a read is one
  instant, and what the pending bits mean. These claims take no call as atomic.
- `ShmSubs` and `ShmReports` do the same for the subscription maps: they are the serial replay of the calls
  that acquired their semaphore, the last request of each process stands, every report of get_sub_requests is
  one instant of them, and no change of a device that stays connected is lost or reported twice.
- `ShmAnswers` is about every completed call: exactly which semaphores it took, that it is in the logs above
  exactly if it succeeded and then once, and what it saw of the unguarded catalog that justifies its answer.
- `ShmSolo` relates the two forms: each program, undisturbed, does what the one-step call does.
- `ShmStale` and `ShmConnect` are about a new device. With whole calls it always starts clean. Once calls
  interleave it need not: the catalog is tested without its semaphore, so a command write can outlive its
  device (`StaleSlot`, `StaleCommand`). `StartsCleanIff` is the exact condition, for every execution: a
  device starts clean if and only if no executor command write that reached its slot's command stream is left
  unconsumed there.

**The wire between host and device**: the two COBS codecs (`Cobs`), frames with checksum and the receivers on
both sides (`Frame`), bitmap-driven typed payloads (`Payload`), the device's main loop and parameter walks
(`Lowcar`), the whole paths host array to device register and device register to shared memory (`Chain`), and
the first exchange with a device, from the host's ping to the id it accepts (`Handshake`).
The two encoders are the same algorithm and have one model; the two decoders differ and are one model with a
flag. The host's decoder is right exactly when no 254 consecutive bytes are non-zero.

**Life cycles**: the poller and the relays of `dev_handler/dev_handler.c` (`Relay`) and the mode loop of
`executor/executor.c` (`Executor`).

**Stream framing** over short reads and writes (`NetStream`).

**Two algorithms**: `PICC_Select` over an arbitrary radio environment (`Select`) and the two number renderers of
the seven-segment library (`SevenSeg`).

`Basics` holds bytes, bitmaps and words. A `uint32_t` bitmap is the set of its on-bits; shifts by 32 or more
give 0. A `param_val_t` is four opaque bytes, of which a BOOL uses the first. Clocks never go back.
Uninitialised memory, the pace of system calls, port files, fork results, the clock, received bytes and the
radio are parameters. Semaphore and mutex operations succeed and no process dies holding one.

Where code and documentation differ the model follows the code: `parse_msg` is documented to return 0 on
success, and returns 1 on success, 0 at end of file, and 1 when the stream ends inside a body.

## Model

| member | source | states |
|---|---|---|
| Cobs.EncodeLength | dev_handler/message.c:101-135 | an encoding of N bytes has N + 1 + (number of full blocks) bytes, at most N + N/254 + 1 |
| Cobs.EncodeBlocks | dev_handler/message.c:101-135 | the format, equation by equation: a block is its length plus one and its bytes, the zero that ends it is left out, 254 non-zero bytes make a block of their own |
| Cobs.DecodeBlocks | dev_handler/message.c:146-171 | both decoders, equation by equation: a block of any bytes, the zero put back, a zero code byte read as an empty block, a block cut short refused |
| Cobs.EncodeNoZero | dev_handler/message.c:101-135 | an encoding contains no zero byte |
| Cobs.DeviceRoundTrip | lowcar/devices/Device/Messenger.cpp:215-257 | the device's decoder undoes the encoder for byte strings of every length and content |
| Cobs.HostRoundTrip | dev_handler/message.c:146-171 | the host's decoder undoes the encoder if and only if no 254 consecutive bytes are non-zero |
| Cobs.FullBlocksIffLongRun | dev_handler/message.c:117-129 | an encoding has a full 0xFF block if and only if the data has a run of 254 non-zero bytes |
| Cobs.DecodersCompared | lowcar/devices/Device/Messenger.cpp:238-257 | both decoders reject the same inputs, malformed ones included; the host's never yields fewer bytes, and yields more behind an inner full block |
| Cobs.DecodersAgree | dev_handler/message.c:146-171 | the decoders agree on an input if and only if it is malformed or no full block is followed by more data |
| Cobs.CobsEncode | dev_handler/message.c:101-135 | the in-place encoder loop writes exactly the encoding at its offset, returns its length and changes nothing else |
| Cobs.CobsDecode | dev_handler/message.c:146-171 | the decoder loop, host's or device's, ends on every input, stores at most `src_len` bytes, and returns the decoded length, 0 on malformed input |
| Cobs.CopyBlock | dev_handler/message.c:155-163 | the inner copy of one block stores the block's bytes and nothing behind them |
| NetStream.Channel.ReadN | runtime_util/runtime_util.c:335-355 | readn collects exactly n bytes across short reads, or what is left at end of file |
| NetStream.Channel.WriteN | runtime_util/runtime_util.c:357-375 | writen writes all bytes across short writes |
| NetStream.Channel.ParseMsg | net_handler/net_util.c:16-38 | parse_msg consumes and returns what the frame format says, with its return value at each end of file |
| NetStream.MakeBuf | net_handler/net_util.c:3-14 | make_buf starts a buffer with the type and the little-endian length |
| NetStream.ParseAllWire | net_handler/net_util.c:3-38 | parsing the concatenated frames of any list of messages gives that list, empty bodies included |
| NetStream.ParseTruncated | net_handler/net_util.c:16-38 | a stream cut inside a header delivers only whole messages; one cut inside a body delivers one more message, of the announced length, with the bytes that arrived |
| NetStream.Transfer | net_handler/net_util.c:3-38 | with every pace of reads and writes, every list of messages with bodies up to 65532 bytes arrives unchanged |
| Basics.XorOn | dev_handler/message.c:72-78 | a bit of an exclusive or is on exactly where the operands differ |
| Frame.ChecksumParity | dev_handler/message.c:72-78 | a bit of the checksum is on exactly if an odd number of bytes has it on |
| Frame.ChecksumDetects | dev_handler/message.c:72-78 | changing any one byte changes the checksum |
| Frame.MessageToBytes | dev_handler/message.c:299-323 | -1 and an untouched buffer exactly when the buffer is too small, otherwise the frame of the message |
| Frame.FrameLayout | dev_handler/message.c:289-323 | the bytes of a frame: zero, length, no other zero, and what decodes to id, payload length, payload and a byte that makes every column of bits even; exactly as long as calc_max_cobs_msg_length says |
| Frame.ParseMessage | dev_handler/message.c:325-357 | every return value and the message for every input, checksum mismatch and bad length included |
| Frame.ParseFrame | dev_handler/message.c:299-357 | parse_message undoes message_to_bytes for payloads up to 132 bytes, whatever memory holds |
| Frame.ParseRefusesExact | dev_handler/message.c:332-341 | the length is found wrong exactly if a block is cut short or fewer than 4 or more than 136 encoded bytes came in |
| Frame.ReceiveMessage | dev_handler/dev_handler.c:555-638 | receive_message under every split of reads consumes and returns what the stream function of the next rows says, before and after verification |
| Frame.ReceiveFrame | dev_handler/dev_handler.c:576-638 | one frame behind any zero-free noise is received and exactly consumed |
| Frame.ReceiveUnverified | dev_handler/dev_handler.c:559-575 | before verification a frame at the start of the stream is received and exactly consumed, any other first byte is consumed and refused with 1, and silence is 3 |
| Frame.LengthRefused | dev_handler/dev_handler.c:599-611 | a length byte below 4 or above 136 is refused with 1, and nothing behind it is consumed |
| Frame.CutFrame | dev_handler/dev_handler.c:599-627 | a frame cut at any point gives 1 and the old message |
| Frame.CorruptFrame | dev_handler/dev_handler.c:629-637 | a frame with one body byte changed, the length byte aside, is consumed and gives 2 |
| Frame.PayloadFits | dev_handler/message.c:342-349 | what parse_message copies stays inside the caller's 132-byte buffer if and only if the length byte is at most 132 |
| Frame.PayloadNeedNotFit | dev_handler/message.c:333-356 | the tests on the lengths do not imply it: a length byte of 133 can pass them and the checksum |
| Frame.OversizeRejected | dev_handler/dev_handler.c:603-606 | a frame with more than 132 payload bytes is never received |
| Frame.ReceiveStream | dev_handler/dev_handler.c:576-638 | any stream of frames with zero-free noise between them is received as exactly that list of messages in order |
| Frame.ReceiverLoop | dev_handler/dev_handler.c:478-484 | repeated receive_message on a descriptor delivers what the stream holds |
| Frame.CorruptionDetected | dev_handler/message.c:350-356 | a frame body with any one byte changed, the length byte aside, is rejected for its checksum |
| Frame.DeviceReadMessage | lowcar/devices/Device/Messenger.cpp:75-126 | read_message for every available input: status, message and unread bytes |
| Frame.DeviceReceiveFrame | lowcar/devices/Device/Messenger.cpp:75-126 | the device receives every frame of up to 250 payload bytes behind any zero-free noise; having no limit of its own, it stays inside its 132-byte buffer exactly for payloads of up to 132 |
| Frame.DeviceCutFrame | lowcar/devices/Device/Messenger.cpp:75-105 | a frame cut at any point leaves the old message, with the status that says how far it got |
| Frame.DeviceNoLength | lowcar/devices/Device/Messenger.cpp:92-94 | a delimiter right behind a delimiter is malformed and stays unread |
| Frame.DeviceCorruptFrame | lowcar/devices/Device/Messenger.cpp:107-119 | a frame with one body byte changed, the length byte aside, is malformed |
| Frame.DeviceSendMessage | lowcar/devices/Device/Messenger.cpp:33-73 | the device sends the frame of its message; an acknowledgement carries the device id, or is not sent when the payload is full; a short serial write is an error |
| Payload.BitmapRoundTrip | dev_handler/message.c:230-230 | a bitmap stored as four little-endian bytes reads back as itself |
| Payload.BitmapLittleEndian | dev_handler/message.c:230-230 | those bytes are the number that the bitmap stands for, lowest byte first |
| Payload.PackedLength | dev_handler/message.c:24-45 | an INT or FLOAT takes four bytes of a payload, a BOOL one |
| Payload.UnpackPacked | dev_handler/message.c:263-278 | taking apart packed values gives each parameter of the mask its own value and touches no other, whatever follows in the buffer |
| Payload.HostMessage.AppendPayload | dev_handler/message.c:58-62 | the data is appended and the status is 0 whenever the caller left room |
| Payload.DeviceWritePayloadSize | dev_handler/message.c:24-45 | the size equals the bytes that bitmap and values will take, for every table and bitmap |
| Payload.MakeDeviceWrite | dev_handler/message.c:235-280 | never NULL; the payload has 4 bytes, 4 for each INT and FLOAT and 1 for each BOOL sent, is exactly full, and holds bitmap and values of the existing, writable, requested parameters |
| Payload.MakeSubscriptionRequest | dev_handler/message.c:205-233 | never NULL; the payload holds the existing, readable, requested parameters and the interval |
| Payload.ParseDeviceData | dev_handler/message.c:359-385 | the values array after parsing any payload buffer; a BOOL replaces one byte of its union |
| Lowcar.Device.DeviceReadParams | lowcar/devices/Device/Device.cpp:120-138 | the payload is the subscribed bitmap and the device's values for it |
| Lowcar.Device.DeviceWriteParams | lowcar/devices/Device/Device.cpp:140-155 | the registers after any payload buffer, and none changed by another message |
| Lowcar.Device.AppendPayload | lowcar/devices/Device/Messenger.cpp:182-189 | appends and reports 0, or leaves everything alone and reports -1 |
| Lowcar.Device.Acknowledge | lowcar/devices/Device/Messenger.cpp:33-73 | the acknowledgement, the ping's payload and the device id, is sent exactly if that fits, and the message buffer after it in both cases |
| Lowcar.Device.HandleMessage | lowcar/devices/Device/Device.cpp:32-64 | what each message does to fields, registers, message buffer and events |
| Lowcar.Device.Proceed | lowcar/devices/Device/Device.cpp:66-94 | time-out reset, actions and data in their order |
| Lowcar.Device.Loop | lowcar/devices/Device/Device.cpp:27-94 | one iteration is the step function that the run theorems are about, with its registers and its message buffer |
| Lowcar.IterationExact | lowcar/devices/Device/Device.cpp:27-94 | what every iteration of every run does, told by what came in so far: acknowledgement with device id and enable at a ping that finds it disabled, reset exactly after a time-out, actions exactly while a ping is recent, data exactly if a request has come and its interval has passed since the last data |
| Lowcar.RequestRemembered | lowcar/devices/Device/Device.cpp:45-51 | after a request for n ms the interval is n between 40 and 500, 40 below and 500 above, until the next request; without one there is none |
| Lowcar.EnabledExact | lowcar/devices/Device/Device.cpp:34-75 | over every run the device is enabled exactly while a ping less than `timeout` ms old stands behind it (any ping if timeout is 0) |
| Lowcar.ActiveOnlyWhenPinged | lowcar/devices/Device/Device.cpp:66-90 | device_actions runs in exactly those iterations, and data is sent in no others |
| Lowcar.ResetBetweenAcks | lowcar/devices/Device/Device.cpp:34-70 | two acknowledgements always have a time-out reset between them; without a timeout there is only one |
| Lowcar.DataApart | lowcar/devices/Device/Device.cpp:45-90 | any two data messages are at least 40 ms apart |
| Chain.WriteDelivers | lowcar/devices/Device/Device.cpp:140-155 | a DEVICE_WRITE payload gives each existing, writable, requested INT or FLOAT its whole four-byte value and each BOOL its first byte, and changes nothing else, if device_write returns each such parameter's size |
| Chain.WriteThrough | dev_handler/message.c:235-323 | the same from make_device_write through the frame, behind noise, read_message and one iteration of Device::loop |
| Chain.SubscriptionArrives | lowcar/devices/Device/Device.cpp:45-51 | the device's subscription is exactly the existing, readable, requested parameters, with the requested interval |
| Chain.DataDelivers | dev_handler/dev_handler.c:491-494 | shared memory ends with the device's whole four-byte values, or first bytes for BOOLs, on exactly the existing, readable, requested parameters and unchanged everywhere else, if device_read returns each such parameter's size |
| Chain.DataThrough | dev_handler/dev_handler.c:480-494 | the same from make_subscription_request through one iteration of Device::loop, the iteration that sends data once the interval has passed, receive_message and device_write, for an enabled device that is pinged |
| Handshake.SendMessage | dev_handler/dev_handler.c:526-541 | exactly the frame of the message is written, under every split of writes |
| Handshake.AwaitAck | dev_handler/dev_handler.c:661-701 | 0 exactly if the first message is a well-formed acknowledgement, 2 otherwise, and the id is the start of its payload |
| Handshake.VerifyDevice | dev_handler/dev_handler.c:652-702 | the host's ping, one iteration of Device::loop and the answer: a disabled device is accepted with its own type, year and unique id, one still enabled is refused with 2 |
| ShmBlock.DeviceBlock.constructor | shm_wrapper/shm_start.c:124-129 | the initial block |
| ShmBlock.DeviceBlock.GetDevIxFromUid | shm_wrapper/shm_wrapper.c:218-228 | the lowest connected index with the unique id, or -1 |
| ShmBlock.DeviceBlock.DeviceReadHelper | shm_wrapper/shm_wrapper.c:87-124 | the caller's buffer gets the masked parameters only; a dev_handler command read clears exactly its pending bits |
| ShmBlock.DeviceBlock.DeviceWriteHelper | shm_wrapper/shm_wrapper.c:135-169 | exactly the masked parameters are stored; an executor command write marks them pending |
| ShmBlock.DeviceBlock.DeviceConnect | shm_wrapper/shm_wrapper.c:313-364 | the whole block after a connect, full catalog included |
| ShmBlock.DeviceBlock.DeviceDisconnect | shm_wrapper/shm_wrapper.c:366-389 | the whole block after a disconnect |
| ShmBlock.DeviceBlock.DeviceRead | shm_wrapper/shm_wrapper.c:391-401 | -1 and nothing changed exactly when the device is not connected |
| ShmBlock.DeviceBlock.DeviceWrite | shm_wrapper/shm_wrapper.c:417-427 | -1 and nothing changed exactly when the device is not connected |
| ShmBlock.DeviceBlock.DeviceReadUid | shm_wrapper/shm_wrapper.c:403-415 | the same by unique id |
| ShmBlock.DeviceBlock.DeviceWriteUid | shm_wrapper/shm_wrapper.c:429-441 | the same by unique id |
| ShmBlock.DeviceBlock.PlaceSubRequest | shm_wrapper/shm_wrapper.c:443-471 | -1 for other processes and unknown devices; otherwise the map and its change bit, only if the request differs; which request then stands is LastRequestStands |
| ShmBlock.DeviceBlock.GetSubRequests | shm_wrapper/shm_wrapper.c:473-514 | the whole report for each process, and that only dev_handler consumes the change bits |
| ShmBlock.DeviceBlock.GetCmdMap | shm_wrapper/shm_wrapper.c:516-526 | a copy of the command map, the block unchanged |
| ShmBlock.DeviceBlock.GetDeviceIdentifiers | shm_wrapper/shm_wrapper.c:528-538 | a copy of the identifiers, the block unchanged |
| ShmHistory.FreeSlotsAlwaysClean | shm_wrapper/shm_wrapper.c:313-441 | after every history of whole calls no free slot has a pending command |
| ShmHistory.ConnectStartsClean | shm_wrapper/shm_wrapper.c:313-364 | after every history a device is connected into the lowest free slot with all values 0, nothing pending, executor subscriptions empty and net subscriptions full, and no other slot changes; with no free slot nothing changes |
| ShmHistory.ChangeBitExact | shm_wrapper/shm_wrapper.c:349-355 | with each call in one step, at every point a change bit is on exactly if it was raised and no dev_handler report has come since |
| ShmHistory.ReportExact | shm_wrapper/shm_wrapper.c:473-514 | with each call in one step, a dev_handler report names exactly the connected slots raised since the last one, each with the union of both current maps |
| ShmHistory.ReportedOnce | shm_wrapper/shm_wrapper.c:443-514 | with each call in one step, a raised change of a device that stays connected is in the next dev_handler report and in no later one until raised again |
| ShmDiscipline.ProgramSound | shm_wrapper/shm_wrapper.c:87-548 | every call touches guarded data only under its semaphores, acquires in the order catalog, data, command, then sub map or cmd map, releases everything, and from each stream acquisition on has exactly the whole call's effect on that stream |
| ShmDiscipline.ReadGathers | shm_wrapper/shm_wrapper.c:95-103 | the copies of a read fetch exactly the parameters of its mask |
| ShmDiscipline.ExecSound | shm_wrapper/shm_wrapper.c:87-548 | the discipline survives every step, the searches for a device and for a free slot included |
| ShmExecution.NoRaces | shm_wrapper/shm_wrapper.c:27-48 | in no reachable configuration are two threads about to touch data guarded by the same semaphore |
| ShmExecution.SemsAlwaysOk | shm_wrapper/shm_start.c:36-53 | in every reachable configuration a semaphore is 0 exactly while one thread, and only one, holds it, and 1 otherwise |
| ShmExecution.DeadlockFree | shm_wrapper/shm_wrapper.c:87-548 | with any number of threads, while any call is unfinished some thread can step |
| ShmSerial.Serializable | shm_wrapper/shm_wrapper.c:87-169 | whenever nobody is inside a stream it is what the calls on it make of it one at a time in the order of their semaphore acquisitions |
| ShmTheorems.ReadAtOneInstant | shm_wrapper/shm_wrapper.c:87-124 | under every interleaving a successful read returns values that were held together at one instant between its start and its end, and touches nothing outside its mask; a failed one touches nothing |
| ShmTheorems.ReadReturnsLatest | shm_wrapper/shm_wrapper.c:87-169 | each value a read returns is that of the last write or connect to reach the stream before it |
| ShmTheorems.LastSetterWins | shm_wrapper/shm_wrapper.c:135-169 | serial replay leaves every parameter as its last setter made it, or as it was initially |
| ShmTheorems.PendingExact | shm_wrapper/shm_wrapper.c:105-112 | under every interleaving a pending bit is on exactly when the executor wrote that parameter and neither a covering dev_handler read nor a disconnect has reached the stream since |
| ShmTheorems.FlagExact | shm_wrapper/shm_wrapper.c:105-112 | under every interleaving a device's bit in cmd_map[0] is on exactly when the executor has written a command since the last command read of dev_handler or disconnect |
| ShmTheorems.CatalogExact | shm_wrapper/shm_wrapper.c:313-389 | under every interleaving a slot is in the catalog exactly if the last connect or disconnect to reach it was a connect, with the identifier that connect was given |
| ShmSubs.ProgramSubSound | shm_wrapper/shm_wrapper.c:443-514 | from the acquisition of sub_map_sem on, every call has exactly its whole effect on both subscription maps |
| ShmSubs.SubsSerializable | shm_wrapper/shm_wrapper.c:333-514 | under every interleaving, whenever nobody holds sub_map_sem both maps are what the connects, requests and reports that acquired it make of them one at a time in that order |
| ShmSubs.LastSubSetterWins | shm_wrapper/shm_wrapper.c:459-468 | serial replay leaves each subscription as its last request or connect made it |
| ShmSubs.LastRequestStands | shm_wrapper/shm_wrapper.c:349-468 | under every interleaving the subscription of the network and of the executor at a slot is the mask of its own last request, or everything and nothing if a connect came later or nothing came at all |
| ShmReports.ReportAtAcquisition | shm_wrapper/shm_wrapper.c:473-514 | under every interleaving every report holds sub_map_sem from one step to another inside its call, and gives for each slot that stays connected, or stays free, in between what stood there when it acquired it; dev_handler gets an empty report if nothing had changed |
| ShmReports.ReportExactInterleaved | shm_wrapper/shm_wrapper.c:349-514 | under every interleaving a dev_handler report names a slot that stays connected during it exactly if a connect or a differing request raised it since the previous dev_handler report, with the union of both maps at that instant |
| ShmReports.ReportedOnceInterleaved | shm_wrapper/shm_wrapper.c:443-514 | under every interleaving no later dev_handler report names it again unless it is raised in between |
| ShmReports.ToldOwnRequests | shm_wrapper/shm_wrapper.c:473-514 | under every interleaving a report to the network or the executor gives that process's own last request, or the default, and its own change bit |
| ShmConnect.ConnectDefaults | shm_wrapper/shm_wrapper.c:331-357 | under every interleaving a connect about to release leaves identifier, catalog bit, zero values, no executor and full net subscriptions |
| ShmConnect.StartsCleanIff | shm_wrapper/shm_wrapper.c:313-364 | in every execution a new device starts clean if and only if no executor command write that reached its slot's command stream is left unconsumed there |
| ShmConnect.PendingAtConnect | shm_wrapper/shm_wrapper.c:331-333 | the same for the pending bits at the instant the connect reaches the command stream |
| ShmConnect.CleanSinceDisconnect | shm_wrapper/shm_wrapper.c:366-389 | after a disconnect only a later command write can break that condition |
| ShmConnect.EveryConnectReleased | shm_wrapper/shm_wrapper.c:357-363 | every connect that returns a slot passed the instant these speak of |
| ShmConnect.ConnectTakesFree | shm_wrapper/shm_wrapper.c:313-331 | under every interleaving a connect takes the lowest slot that is free when it reaches it, and every earlier connect there was followed by a disconnect |
| ShmAnswers.EveryAnswer | shm_wrapper/shm_wrapper.c:87-548 | under every interleaving every completed call took exactly the semaphores its answer calls for, in order; a read or write by index succeeds exactly if the device was in the catalog at one instant of the call, a call by unique id succeeds only if its slot was in the catalog and then had that id and fails only if each slot was at some instant seen without it, a connect fails only if the catalog was full |
| ShmAnswers.LoggedAsDue | shm_wrapper/shm_wrapper.c:87-548 | under every interleaving a completed write, read, request, connect or disconnect reached each stream and map its answer calls for exactly once, between its start and its end, and no other |
| ShmSolo.AloneAsOneStep | shm_wrapper/shm_wrapper.c:87-548 | every call's program, undisturbed, leaves the block and returns the answer of the one-step call |
| ShmStale.RunToEnd | shm_wrapper/shm_wrapper.c:87-548 | a thread that nobody disturbs runs its call to the end from any point |
| ShmStale.StaleSlot | shm_wrapper/shm_wrapper.c:417-427 | an execution in which a command write overtaken by a disconnect leaves a free slot with a pending command |
| ShmStale.StaleCommand | shm_wrapper/shm_wrapper.c:391-427 | an execution in which the next device connects with that pending command, so a clean start needs whole calls |
| Relay.UsedPorts.GetNewDevicesHelper | dev_handler/dev_handler.c:167-188 | one scan finds exactly the present and unused ports and marks them |
| Relay.OneRelayPerPort | dev_handler/dev_handler.c:131-263 | over every interleaving no port has two live relays |
| Relay.LivePortUsed | dev_handler/dev_handler.c:167-188 | over every interleaving a live relay's port is marked used and is not waiting to be opened again |
| Relay.CatalogIsTheRelays | dev_handler/dev_handler.c:289-354 | relays past device_connect hold distinct indices and the catalog is exactly those indices |
| Relay.PhaseExact | dev_handler/dev_handler.c:274-376 | a relay is where its last step left it: one whose verification failed is on its way out, one that connects gets the lowest free index unless there is none |
| Relay.OnlyVerifiedConnect | dev_handler/dev_handler.c:274-297 | a relay with an index got it from device_connect right after its verification succeeded |
| Relay.ServedWasPresent | dev_handler/dev_handler.c:167-188 | a port that is served was present when it was scanned |
| Relay.StoreExact | dev_handler/dev_handler.c:330-367 | clearing a port's bit leaves no stale bit exactly when the used-ports word is still the one that was loaded |
| Relay.StaleExact | dev_handler/dev_handler.c:330-367 | a run keeps every used bit somebody's exactly as long as every clear finds the word it loaded |
| Relay.StalePort | dev_handler/dev_handler.c:332-338 | a run in which the unlocked clear overlaps a locked one and leaves a port marked used that nobody serves |
| Executor.ParamsToReset | executor/executor.c:73-79 | the parameters named velocity_a or velocity_b |
| Executor.KoalaVelocities | runtime_util/runtime_util.c:80-102 | for KoalaBear these are parameters 0 and 8 |
| Executor.ResetParams | executor/executor.c:56-87 | the whole block after reset_params |
| Executor.ResetExact | executor/executor.c:56-87 | exactly the slots that connected KoalaBears are looked up at get both velocities commanded to zero and pending; all else is unchanged |
| Executor.KoalaReset | executor/executor.c:80-80 | a connected KoalaBear is reset exactly when it is the first connected device with its unique id |
| Executor.AllKoalasReset | executor/executor.c:56-87 | with distinct unique ids every connected KoalaBear is reset |
| Executor.SharedUidKept | shm_wrapper/shm_wrapper.c:429-441 | a KoalaBear behind another device with the same unique id keeps its commands |
| Executor.ModeLoop.KillSubprocess | executor/executor.c:479-498 | the child is reaped, then AUTO and TELEOP children are followed by a reset |
| Executor.ModeLoop.StartModeSubprocess | executor/executor.c:504-530 | the parent's side of a fork that may fail |
| Executor.ModeLoop.Iterate | executor/executor.c:585-601 | one turn of the main loop on mode, children, events and block |
| Executor.WantedModeRuns | executor/executor.c:585-601 | in every turn of every run the wanted mode runs afterwards if a fork succeeds, otherwise only if it ran before; the turn reaps what ran, resets unless that was a challenge, forks the wanted mode once, and does nothing if it runs already |
| Executor.ResetStops | executor/executor.c:56-87 | after a reset every connected KoalaBear, with distinct unique ids, has both velocities commanded to zero and pending |
| Executor.ModesOrderly | executor/executor.c:585-601 | over every sequence of RUN_MODE values, fork outcomes and blocks, each fork finds no unreaped child, and what follows each AUTO or TELEOP fork is its reaping and a reset to such a block |
| Executor.StoppedBetweenForks | executor/executor.c:585-601 | between an AUTO or TELEOP fork and any later fork the child is reaped and then every connected KoalaBear is stopped |
| Executor.RunModes | executor/executor.c:583-601 | the loop itself produces such a trace, with the block changing arbitrarily between turns |
| Select.Reader.TransceiveData | lowcar/lib/MFRC522/MFRC522.cpp:410-501 | one exchange: status, length, stored bytes |
| Select.BitsMerged | lowcar/lib/MFRC522/MFRC522.cpp:111-122 | of the first of several bytes stored the bits below the alignment stay and the others are the received ones |
| Select.Reader.PrepareLevel | lowcar/lib/MFRC522/MFRC522.cpp:624-672 | SEL byte, known bits and known bytes of a level |
| Select.AllKnown | lowcar/lib/MFRC522/MFRC522.cpp:646-672 | a caller that knows the whole UID has all bits of every level, cascade tags included |
| Select.Reader.SelectCommand | lowcar/lib/MFRC522/MFRC522.cpp:678-693 | a card alone at this level answers its SELECT with its SAK and goes to the next level |
| Select.BccBits | lowcar/lib/MFRC522/MFRC522.cpp:682-682 | a bit of the check byte is on exactly if an odd number of the four bytes has it on |
| Select.Reader.Anticollision | lowcar/lib/MFRC522/MFRC522.cpp:694-711 | a card alone at this level answers with the level's bytes and stays there |
| Select.Reader.ResolveCollision | lowcar/lib/MFRC522/MFRC522.cpp:712-729 | the position is the one CollReg reports; without a valid one, or without progress, the call fails; otherwise the known bits grow, up to 32 |
| Select.Reader.SelectLevel | lowcar/lib/MFRC522/MFRC522.cpp:674-744 | for every response sequence at most 33 exchanges per level, fewer with known bits; a card on its own is selected |
| Select.Reader.FinishLevel | lowcar/lib/MFRC522/MFRC522.cpp:746-773 | the stored UID bytes, every error, and whether another level follows |
| Select.CardIsAlone | lowcar/lib/MFRC522/MFRC522.cpp:603-611 | the hypothesis about the card is met by one that keeps its level, answers no other level and is silent once selected |
| Select.Reader.CascadeLevel | lowcar/lib/MFRC522/MFRC522.cpp:623-774 | one turn of the cascade loop: at most 33 exchanges, two for a card on its own, whose bytes it stores |
| Select.Reader.PiccSelect | lowcar/lib/MFRC522/MFRC522.cpp:572-780 | for every response sequence it ends within 3 levels and 99 exchanges; a conforming card alone with a 4, 7 or 10 byte UID, which answers each level only once it has reached it, yields OK in two exchanges per level, or one if the caller knows the UID, with its size, its SAK and the reported UID |
| Select.FinalReport | lowcar/lib/MFRC522/MFRC522.cpp:748-753 | what the level-by-level copies add up to for such a card |
| Select.ReportedRight | lowcar/lib/MFRC522/MFRC522.cpp:749-750 | that is the card's UID exactly when the last level does not begin with 0x88, or everything there is 0x88 |
| Select.BitByteRight | lowcar/lib/MFRC522/MFRC522.cpp:725-728 | after a collision the bit is set in its own byte exactly for positions that are not the first or last of a byte |
| SevenSeg.LimitInt | lowcar/lib/SevenSeg/SevenSeg.cpp:502-518 | the power loop and the clamp |
| SevenSeg.NearestDisplayable | lowcar/lib/SevenSeg/SevenSeg.cpp:502-518 | the clamped number has room on the display, sign included, and no number that has is nearer |
| SevenSeg.WriteDirect | lowcar/lib/SevenSeg/SevenSeg.cpp:382-443 | the loop that carries `num` and `minus` shows at every position what iaExtractDigit gives, and lights the point with exactly `point` positions to its right |
| SevenSeg.TimedDisplay.Write | lowcar/lib/SevenSeg/SevenSeg.cpp:445-456 | timer mode remembers the clamped number and the mapped point |
| SevenSeg.TimedDisplay.ShowNext | lowcar/lib/SevenSeg/SevenSeg.cpp:734-756 | each interrupt shows the next position |
| SevenSeg.SameInBothModes | lowcar/lib/SevenSeg/SevenSeg.cpp:382-499 | both modes show the same characters and the same point, for every number, decimal count and width |
| SevenSeg.ShownToTheRight | lowcar/lib/SevenSeg/SevenSeg.cpp:483-487 | suppressed positions are a prefix of the display |
| SevenSeg.GlyphExact | lowcar/lib/SevenSeg/SevenSeg.cpp:461-499 | a digit stands exactly where the number, the point or the last position needs one, and a minus sign exactly left of the first |
| SevenSeg.MinusIffSuppressed | lowcar/lib/SevenSeg/SevenSeg.cpp:461-499 | a minus sign is shown exactly for a negative number whose first position is suppressed |
| SevenSeg.ReadsBack | lowcar/lib/SevenSeg/SevenSeg.cpp:382-443 | the display reads back as the clamped number exactly when the mapped point is at least 1 or the number is not negative |

## Left out

- Sockets, serial ports, termios, signals, exec and pthread creation appear only as steps or parameters.
- `cmd_map[0]` as an exact summary of the pending bits: it is not one, since a read that covers other parameters clears it; `FlagExact` says what it is.
- Delivery of a subscription change to one particular sender thread: any sender's call clears all change bits.
- The `start_cond` handshake between relayer, sender and receiver, and the sender's own loop.
- The inputs, robot description and log data blocks of shared memory, and the error returns of `log_data_write`.
- NetStream.Channel.ReadN: a read that fails (rather than ends) and its -1 are not modelled.
- NetStream.Channel.WriteN: a write that fails and its -1 are not modelled.
- Frame.ParseMessage: the message is a value of any length; `PayloadFits` says when it fits the caller's buffer, and bytes beyond what was decoded are a parameter.
- Frame.DeviceReadMessage: likewise; a message of more than 132 bytes does not fit the device's buffer.
- Payload.HostMessage.AppendPayload: the copy that precedes the size check needs room, which is a precondition proved for every caller.
- Lowcar.Device.Loop: starts from a message that fits the buffer, since beyond it the code has no defined behaviour; what device_enable, device_reset and device_actions do to the values is a parameter; 16-bit shifts on AVR and LED handling are not modelled.
- Handshake.VerifyDevice: a ping that cannot be written (return 1) and terminal settings that fail are not modelled.
- Handshake.SendMessage: a write that fails and its -1 are not modelled.
- ShmHistory.ChangeBitExact: stated for whole calls; the general form is ShmReports.ReportExactInterleaved with ShmSubs.SubsSerializable.
- ShmHistory.ReportExact: stated for whole calls; the general form is ShmReports.ReportExactInterleaved.
- ShmHistory.ReportedOnce: stated for whole calls; the general form is ShmReports.ReportedOnceInterleaved.
- Relay.OneRelayPerPort: a relay counts as live until its port bit is cleared; the release of its memory afterwards is not modelled.
- Executor.ModeLoop.KillSubprocess: kill and waitpid succeed, and other processes do not touch the block during the reset.
- SevenSeg.TimedDisplay.ShowNext: the extra position of a display with a symbol pin is not modelled.
- Select.Reader.PiccSelect: which card is selected after a collision is not claimed, only that the loops end.
- The device parameter tables apart from KoalaBear's names: the payload results hold for every table of 1 to 32 parameters.
- PID control, the KoalaBear ramp, battery voltages and the gamestate filter: floating point, or easy once real-valued.
- Servo, SPI, EEPROM, LEDs, the other display modes and the rest of MFRC522: hardware registers or easy members.
- The interrupt handlers (`stop` in dev_handler, `exit_handler` in executor) and the device's log messages.
- Protobuf packing, the Python embedding, logger, user interfaces, command-line clients and the tests.
