# CastMirror core: verified model

CastMirror captures a screen and its sound, encodes and encrypts them, and sends them to a Cast receiver over
RTP while adapting to the receiver's feedback. These modules model the stateful parts of its `core` library where
correctness spans many calls, and prove what those parts keep over whole runs. `dafny verify dfyconfig.toml`
checks everything.

| module | models |
|---|---|
| `Adaptive`, `AdaptiveRuns`, `AdaptiveConvergence`, `AdaptiveCongestion` | the quality ladder controller; its run properties; its recovery on a clean link; its descent on a bad one |
| `Transport`, `RetransmitRuns`, `MediaRuns`, `PacerRuns`, `SenderReports` | the media transport: retransmit cache, NACK suppression, runs over encoded media, pacer, sender reports |
| `AudioTimeline`, `RtpClock`, `CaptureQueue` | the audio path from captured samples to RTP timestamps |
| `FrameCrypto` | counter-mode frame encryption |
| `CastChannel`, `Redaction` | control channel framing and log redaction |
| `DeviceDiscovery` | mDNS queries, responses and TXT records |
| `CallbackShutdown` | callback accounting of the C interface |
| `GpuProcessor` | letterbox geometry and plane offsets |
| `Arithmetic` | C++ division, 32-bit wrap-around, big-endian words |

An object whose methods update fields is a class here. Each method is proved equal to a transition function on the
object's state as a value, and the run theorems are proved about those functions over arbitrary event sequences.

Conventions:

- Clock readings, socket and codec answers, TLS read and write results, lock order and the block cipher are
  parameters, so every theorem holds for all of them. Steady-clock times are integer nanoseconds.
- Floating-point averages, tokens and scale factors are reals.
- Fields of the controller are grouped in records (`Quality`, `Caps`, `Ticks`, `Clocks`, `Window`); the nested
  map of retransmission times is one map keyed by SSRC, frame and packet.
- The ladder is the eight-rung table of `core/src/adaptive_controller.cc:16-27`; constants are those of the headers
  under `core/include/castcore`.
- `AES-CTR` is section 6.5 of NIST SP 800-38A; RTP headers and sender reports follow sections 5.1
  and 6.4.1 of RFC 3550; DNS messages follow
  section 4.1 of RFC 1035 and TXT strings section 6 of RFC 6763.

Where the code does not do what its comments or a first reading suggest, the model follows the code and states
exactly when the expectation holds:

- `core/src/cast_transport.cc:262` says no 2 ms window exceeds one burst. That holds exactly for windows that start on
  an empty bucket (`PacerRuns.IntervalWithinBurstIff`); the bound for all windows is `PacerRuns.WindowBound`.
- A checkpoint limit passes what was sent when the checkpoint is 2^31 or more ahead
  (`RetransmitRuns.EraseLimitSafeIff`). `ExpandFrameId` (`core/src/rtcp_parser.cc:22-30`) keeps a checkpoint near the
  newest id of a snapshot, so this needs the ids to wrap between the snapshot and the cache lock, or a direct call
  of the public function.
- A live cap below 1200 kbps leaves the bitrate above the cap (`AdaptiveRuns.LiveCapRespectedIff`), and no clean run
  brings it down (`AdaptiveConvergence.LiveCapRecoversIff`); `SetLiveVideoBitrateKbps` admits 1000.
- With adaptation off an emergency downshift ignores the caps (`AdaptiveRuns.DisabledDownshiftCappedIff`). It does
  not restart the clean count either.
- Congestion does not restart the ceiling's clean counter, so a reimposed ceiling can lift after one clean
  evaluation (`AdaptiveConvergence.ReimposedCeilingLiftsAtOnceIff`, `AdaptiveConvergence.CeilingLasts`).
- A ramp towards a target within 500 kbps of 2^32 wraps (`AdaptiveConvergence.RampNeverDropsIff`). A session clamps
  live caps to the device's maximum, so only direct calls of the controller set such a target.
- A clean run need not return to the rung it fell from: it gets there exactly when no rung on the way is closed
  (`AdaptiveConvergence.CleanRunReturnsIff`). A session started at 1080p30 can stay on 720p30 for good, because the
  rung between runs at 60 fps (`AdaptiveConvergence.StuckOn720p30`).
- Audio frames can be one tick closer than 480 exactly when the clock origin is not a whole microsecond
  (`AudioTimeline.WholeFramesApartIff`). The origin is a nanosecond clock reading less 500 ms
  (`core/src/cast_session.cc:493`), so this is the usual case.
- The report error leaves (-1, 2) ticks for some stamps exactly when the sub-microsecond parts are not small
  (`SenderReports.PastReportsMapIff`, `SenderReports.FutureReportsMapIff`).
- Names of more than 100 labels stop the skip early (`DeviceDiscovery.SkipNameIff`).
- Messages outside 1 byte to 1 MiB are sent but not accepted (`CastChannel.FramingRoundTripIff`).
- A payload of 2^31 bytes or more is not encrypted past the length the cipher call sees
  (`FrameCrypto.DecryptInvertsIff`).

## Model

| member | source | states |
|---|---|---|
| `AdaptiveConvergence.SessionRecovers` | core/src/adaptive_controller.cc:386-450 | After `Initialize` and any run of feedback, evaluations, toggles and other calls, with caps of at most 2^32 - 500 kbps, a clean run with adaptation on and at least as long as a warm-up plus 8 rungs of `8(k+1)+10` evaluations (`target <= 500*2^k`) ends with no ceiling, on exactly the resting rung of the limits the session started with, and with the bitrate at exactly a nonzero hold target if and only if it was not above the target when the clean run began or the rung has room to climb |
| `AdaptiveConvergence.CleanRunConverges` | core/src/adaptive_controller.cc:386-450 | From any ready state, whatever its bitrate, a long enough clean run ends with no congestion ceiling, on exactly the rung below the first one on the way up that size, frame rate or cap close, and with the bitrate at a nonzero target if and only if it started no higher or climbed; otherwise the bitrate stays where it was; without a target it follows the rung |
| `AdaptiveConvergence.CleanRunReturnsIff` | core/src/adaptive_controller.cc:426-449 | Such a run gets back to rung q or better if and only if every rung from q up to the start's predecessor is within the limits and the cap |
| `AdaptiveConvergence.RunMovesBitrate` | core/src/adaptive_controller.cc:406-440 | Over a clean run a bitrate above the target keeps its value until an upshift, and none ends above the target otherwise |
| `AdaptiveConvergence.LiveCapRecoversIff` | core/src/cast_session.cc:1210-1224 | After a live change to any nonzero cap a long enough clean run brings the bitrate to exactly the cap if and only if the cap is at least 1200 kbps |
| `AdaptiveConvergence.LowLiveCapStays` | core/src/cast_session.cc:1210-1224 | After a live cap below 1200 kbps every clean run, however long, stays on the floor rung at 1200 kbps, above the cap |
| `AdaptiveConvergence.RunKeepsRest` | core/src/adaptive_controller.cc:426-449 | No clean run, however short or long, climbs past the resting rung or changes where it is |
| `AdaptiveConvergence.RestReachesIff` | core/src/adaptive_controller.cc:426-449 | The climb over open rungs reaches rung q if and only if no rung on the way is closed |
| `AdaptiveConvergence.StuckOn720p30` | core/src/adaptive_controller.cc:428-432 | A session started at 1080p30 with 5000 kbps that congests twice stays on 720p30 over every clean run |
| `AdaptiveConvergence.WorkRunsDown` | core/src/adaptive_controller.cc:386-450 | Past the warm-up every clean evaluation of a run not yet stable lowers one measure of rung, ramps left and clean ticks left, so stability is reached within the measure |
| `AdaptiveConvergence.TickWorks` | core/src/adaptive_controller.cc:403-449 | One clean evaluation with no ceiling and 15 s since the last downshift strictly lowers the measure unless the state is stable |
| `AdaptiveConvergence.StableStays` | core/src/adaptive_controller.cc:386-450 | A stable state keeps its rung and bitrate over a clean evaluation and stays stable |
| `AdaptiveConvergence.CeilingLifts` | core/src/adaptive_controller.cc:390-401 | In a clean run a congestion ceiling still standing after n evaluations has a counter of at least n and below 10: it lifts within ten |
| `AdaptiveConvergence.CeilingLasts` | core/src/adaptive_controller.cc:390-401 | A standing ceiling lasts exactly max(1, 10 - counter) clean evaluations, unchanged, and is then gone for the rest of the clean run |
| `AdaptiveConvergence.ReimposedCeilingLiftsAtOnceIff` | core/src/adaptive_controller.cc:359-362 | Congestion does not clear the ceiling counter: a ceiling standing after congestion lifts at the first clean evaluation if and only if the counter already stood at nine or more |
| `AdaptiveConvergence.ReimposedCeilingReached` | core/src/adaptive_controller.cc:359-401 | Every 1080p session reaches that: congestion, the clean evaluations that lift the ceiling, congestion at the next evaluation, and the new ceiling is gone after one clean evaluation |
| `AdaptiveConvergence.PliTickReacts` | core/src/adaptive_controller.cc:335-384 | Past the cooldown a picture loss moves a settled session one rung down, imposes the ceiling and leaves its counter alone |
| `AdaptiveConvergence.RampsLogarithmic` | core/src/adaptive_controller.cc:408-411 | Closing a gap of at most `500*2^k` kbps takes at most k+1 ramps |
| `AdaptiveConvergence.RampNeverDropsIff` | core/src/adaptive_controller.cc:408-411 | No ramp ever lowers the bitrate through 32-bit wrap-around if and only if the target is at most 2^32 - 500 |
| `AdaptiveConvergence.SoundReached` | core/src/adaptive_controller.cc:202-481 | Every run of calls with caps below the wrap, toggles and the lowest live caps included, keeps the conditions convergence needs besides adaptation being on, and a standing ceiling has counted at least the clean evaluations an upshift counts |
| `AdaptiveConvergence.FreshSessionHasCleanRuns` | core/src/adaptive_controller.cc:202-218 | A session just initialised has clean runs of every length, so recovery is never promised of nothing |
| `AdaptiveCongestion.TroubledRunReachesFloor` | core/src/adaptive_controller.cc:335-384 | The dual of recovery: a run whose every window shows trouble never climbs, counts nothing as clean, and is on the floor rung within a number of evaluations computed from the start state |
| `AdaptiveCongestion.TicksToFloorBound` | core/src/adaptive_controller.cc:335-384 | That number is at most four for each rung above the floor |
| `AdaptiveCongestion.TroubledEvaluation` | core/src/adaptive_controller.cc:335-384 | Trouble, in plain numbers (loss above 3 %, smoothed round trip above 120 ms, 50 packets asked for, a lost picture, 1 % loss with 4 or 6 packets asked for), or a third rise of the round trip, zeroes the clean count and moves exactly one rung down, to that rung's capped bitrate, if and only if a downshift is due: a flood 3 s past the last one, else four intervals past it when severe or second in a row |
| `AdaptiveCongestion.CleanCountRestartsIff` | core/src/adaptive_controller.cc:335-388 | A short clean count restarts if and only if the window shows trouble or a third rise, and else grows by one |
| `AdaptiveCongestion.HeavyLossDownshifts` | core/src/adaptive_controller.cc:345-354 | A last report of more than 15 % loss, 3 s past the last downshift and above the floor, takes the session exactly one rung down |
| `AdaptiveCongestion.FreshSessionReactsToLoss` | core/src/adaptive_controller.cc:29-75 | So does every session at its first evaluation |
| `AdaptiveCongestion.LiveChangeReactsToLoss` | core/src/adaptive_controller.cc:88-109 | And every session after a live bitrate change |
| `AdaptiveCongestion.WindowCollects` | core/src/adaptive_controller.cc:139-178 | An evaluation sees the last loss reported, exactly the packets asked for, and whether a picture was lost |
| `AdaptiveCongestion.FeedbackShowsTrouble` | core/src/adaptive_controller.cc:163-175 | Feedback with 3 % loss in its last report, a lost picture or fifty packets asked for shows trouble whatever was pending |
| `AdaptiveCongestion.SlowLinkShowsTrouble` | core/src/adaptive_controller.cc:144-161 | Round trips above 120 ms show trouble |
| `AdaptiveCongestion.SteadyAverages` | core/src/adaptive_controller.cc:144-161 | Over n reports of one round trip and jitter the averages' distances shrink by exactly 0.8^n and 0.9^n, and with no jitter reported the jitter average follows the round trips in closed form |
| `AdaptiveCongestion.SteadyFromStart` | core/src/adaptive_controller.cc:149-152 | The first sample is taken as it is |
| `AdaptiveCongestion.RiseCounted` | core/src/adaptive_controller.cc:325-333 | Each evaluation counts a round trip more than 3 ms above the last one and starts over at any other or at a downshift |
| `AdaptiveCongestion.DelayMoves` | core/src/adaptive_controller.cc:292-314 | The delay goes to the next step up in a degraded interval past the cooldown, to the next step down at the end of fifteen calm ones, and nowhere else |
| `AdaptiveCongestion.DisabledDownshiftIff` | core/src/adaptive_controller.cc:235-257 | With adaptation off a downshift happens if and only if loss is above 10 %, a picture is lost, or 50 packets are asked for with 3 % loss, above the floor and 3 s past the last one |
| `AdaptiveCongestion.NoCeilingAbove1080p` | core/src/adaptive_controller.cc:359-362 | A session larger than 1080p never gets a ceiling, over every run |
| `AdaptiveCongestion.FreshCeilingLastsTen` | core/src/adaptive_controller.cc:390-401 | A ceiling imposed right after a clean evaluation without one lasts its full ten clean evaluations |
| `AdaptiveCongestion.FloorWarnsIff` | core/src/adaptive_controller.cc:377-383 | On the floor two bad evaluations in a row past the cooldown warn, at most once in 10 s |
| `AdaptiveCongestion.EvaluationsAreApart` | core/src/adaptive_controller.cc:204-218 | A due evaluation, with feedback or without, starts the interval over: until it has passed no further one changes anything |
| `AdaptiveCongestion.EvaluationSetsGeometry` | core/src/adaptive_controller.cc:452-466 | With resolution changes allowed frame size and rate are those of the rung, the largest even size within the session's |
| `AdaptiveCongestion.SettingsTaken` | core/src/adaptive_controller.cc:29-75 | Start delay, frame size and rate are those asked for, within bounds; so is a delay set later |
| `AdaptiveCongestion.ResetForgetsFeedback` | core/src/adaptive_controller.cc:180-200 | Feedback received before a window reset has no effect after it |
| `AdaptiveRuns.ReachableBounds` | core/src/adaptive_controller.cc:29-125 | In every state reached after `Initialize`: user cap equals hold target, even resolution within the initial size, frame rate within the initial one, delay in [150, 400]; with adaptation on throughout the bitrate is within the larger of a nonzero cap and 1200 kbps, and within the cap when no live cap was lower than 1200 |
| `AdaptiveRuns.LiveCapRespectedIff` | core/src/cast_session.cc:1210-1224 | After a live bitrate change the bitrate is within the new cap if and only if the cap is at least the floor rung's 1200 kbps; `SetLiveVideoBitrateKbps` admits 1000 |
| `AdaptiveRuns.DisabledDownshiftCappedIff` | core/src/adaptive_controller.cc:235-257 | With adaptation off a downshift leaves the bitrate within a nonzero cap if and only if the next rung's ladder bitrate is within it |
| `AdaptiveRuns.DisabledDownshiftPassesCap` | core/src/adaptive_controller.cc:235-257 | Every session started below 1200 kbps gets past its cap that way, to 5000 kbps, at one picture loss |
| `AdaptiveRuns.GeometryFrozen` | core/src/adaptive_controller.cc:454-466 | While resolution changes are disallowed no run of events changes width, height or frame rate |
| `AdaptiveRuns.DownshiftsAreApart` | core/src/adaptive_controller.cc:235-246 | Any two downshifts of a run, emergency or ordinary, adaptation on or off, with no rung reset between them, are at least min(3000 ms, 4 evaluation intervals) apart |
| `AdaptiveRuns.DownshiftsInWindow` | core/src/adaptive_controller.cc:344-370 | A run whose evaluations lie in a window of length T holds at most T over that distance, plus one, downshifts |
| `AdaptiveRuns.EvaluationShiftsOneRung` | core/src/adaptive_controller.cc:342-370 | One evaluation moves the rung by at most one, and moves the downshift clock exactly when it moves the rung down |
| `AdaptiveRuns.UpshiftDiscipline` | core/src/adaptive_controller.cc:403-449 | Every upshift of a run ends a streak of at least ten clean evaluations with feedback since the last congestion found with adaptation on, ramp, upshift, live change or window reset, finds the bitrate at the target, and comes at least 15 s after every earlier downshift with no live change since; a live change sets the downshift clock to 10 s ago, so past one the distance can be shorter |
| `AdaptiveRuns.RampDiscipline` | core/src/adaptive_controller.cc:403-416 | Every ramp of a run ends a streak of at least eight clean evaluations, finds the round trip not rising, and gains at most half the gap to the target, or 500 kbps |
| `AdaptiveRuns.DelayDiscipline` | core/src/adaptive_controller.cc:292-314 | Every evaluation that moves the playout delay lands on 150, 200, 300 or 400, and one that lowers it ends fifteen consecutive delay-clean evaluations since the last window reset |
| `Adaptive.RungForBitrateFrom` | core/src/adaptive_controller.cc:93-103 | The rung for a bitrate is the best fitting one, no better rung fits, and the floor stands in only when none fits |
| `Adaptive.StartRungFrom` | core/src/adaptive_controller.cc:53-61 | The start rung is the first that fits the session, 1080p60 when none does |
| `Adaptive.AdaptiveController.CheckAdaptation` | core/src/adaptive_controller.cc:202-481 | One evaluation takes exactly the transition `Evaluate`, and reports new settings exactly when they changed or, with adaptation off, the rung moved |
| `Adaptive.AdaptiveController.AdaptPlayoutDelay` | core/src/adaptive_controller.cc:292-314 | The delay step of an evaluation, up when degraded and the downshift cooldown is over, down on the fifteenth clean one |
| `Adaptive.AdaptiveController.TrackRttTrend` | core/src/adaptive_controller.cc:325-331 | A tick that fails to clear the 3 ms margin breaks the rising streak |
| `Adaptive.AdaptiveController.ReactToCongestion` | core/src/adaptive_controller.cc:335-384 | The congestion branch: emergency or ordinary downshift, ceiling, floor warning, counters |
| `Adaptive.AdaptiveController.Downshift` | core/src/adaptive_controller.cc:349-354 | A downshift takes the rung's bitrate through the caps and starts the cooldown |
| `Adaptive.AdaptiveController.ClampToCaps` | core/src/adaptive_controller.cc:264-272 | The bitrate is cut to the smaller nonzero one of user cap and ceiling |
| `Adaptive.AdaptiveController.CountCleanInterval` | core/src/adaptive_controller.cc:387-401 | A clean evaluation counts for recovery and separately for lifting the ceiling |
| `Adaptive.AdaptiveController.RampBitrate` | core/src/adaptive_controller.cc:406-416 | After eight clean ticks and a flat round trip half the gap, at least 500 kbps, is closed |
| `Adaptive.AdaptiveController.UpshiftRung` | core/src/adaptive_controller.cc:422-449 | The next better rung is taken, or the clean count restarts when it is not allowed |
| `Adaptive.AdaptiveController.Initialize` | core/src/adaptive_controller.cc:29-75 | The state a session starts in; the ceiling counter alone is not cleared |
| `Adaptive.AdaptiveController.FindStartRung` | core/src/adaptive_controller.cc:52-61 | The loop over the ladder finds the first fitting rung |
| `Adaptive.AdaptiveController.SetBitrateCapKbps` | core/src/adaptive_controller.cc:77-86 | The cap is also the hold target, and the bitrate is cut to it at once |
| `Adaptive.AdaptiveController.ResetRungForBitrate` | core/src/adaptive_controller.cc:88-109 | The rung for a bitrate is taken with its ladder bitrate, the ceiling dropped and the cooldown opened |
| `Adaptive.AdaptiveController.FindRungForBitrate` | core/src/adaptive_controller.cc:93-103 | The loop over the ladder finds the best rung within bitrate and limits |
| `Adaptive.AdaptiveController.SetPlayoutDelayMs` | core/src/adaptive_controller.cc:111-113 | The delay is clamped to [150, 400] |
| `Adaptive.AdaptiveController.StepUpPlayoutDelay` | core/src/adaptive_controller.cc:115-125 | Next delay up: 200, 300, 400 |
| `Adaptive.AdaptiveController.StepDownPlayoutDelay` | core/src/adaptive_controller.cc:127-137 | Next delay down: 300, 200, 150 |
| `Adaptive.AdaptiveController.OnFeedback` | core/src/adaptive_controller.cc:139-178 | Only measured round trips and losses are absorbed; NACKs count once per packet |
| `Adaptive.AdaptiveController.ResetFeedbackWindow` | core/src/adaptive_controller.cc:180-200 | The window, averages and counters are cleared, caps and rung kept |
| `RetransmitRuns.CacheRefinesHistory` | core/src/cast_transport.cc:239-254 | Over every interleaving of sends, checkpoints and NACKs, with increasing ids, a stream's cache holds exactly the sent history without a dropped prefix, every frame with the packets given to it |
| `RetransmitRuns.CacheLosesOnly` | core/src/cast_transport.cc:653-677 | The cache holds at most 30 video or 50 audio frames; a sent frame is missing only if a received checkpoint reached its id or that many newer frames were sent (ids below 2^31) |
| `MediaRuns.StreamCache` | core/src/cast_transport.cc:222-254 | The cache over runs of encoded frames: for each stream, at most 30 video or 50 audio frames, each exactly the packets it was sent with under the SSRC in their headers, and a sent frame is missing only after an acknowledgement or that many newer frames |
| `MediaRuns.HistoryMatches` | core/src/cast_transport.cc:222-247 | The history the cache refines is that of the frames whose headers name the stream |
| `RetransmitRuns.DroppedFor` | core/src/cast_transport.cc:653-677 | The cause of each dropped frame, by position in the history |
| `RetransmitRuns.AddPacketsStores` | core/src/cast_transport.cc:242-245 | Packets of a frame with distinct ids are each cached under their own id |
| `RetransmitRuns.EraseLimitMeaning` | core/src/cast_transport.cc:547-568 | Below 2^31 a checkpoint erases up to itself, up to one before the last sent frame when up to 32 ahead, and nothing beyond that; never past what was sent |
| `RetransmitRuns.EraseLimitSafeIff` | core/src/cast_transport.cc:547-568 | Over all 32-bit values the limit stays within the last sent frame if and only if the checkpoint is less than 2^31 ahead; otherwise every frame of any cache of sent frames is dropped |
| `RetransmitRuns.WrappedCheckpointEmptiesCache` | core/src/cast_transport.cc:547-568 | Checkpoint 0xFFFFFFFE after frame 5 drops frames 0 to 5 |
| `RetransmitRuns.RetransmissionsAreApart` | core/src/cast_transport.cc:503-535 | Any two retransmissions of one packet are at least 80 ms apart although checkpoints erase suppression records |
| `RetransmitRuns.RetransmitsIff` | core/src/cast_transport.cc:503-535 | A NACK retransmits a packet if and only if it is cached, named by the NACK or by a whole-frame NACK, and was not retransmitted within 80 ms |
| `MediaRuns.ResentIff` | core/src/cast_transport.cc:636-683 | After any run an RTCP packet makes the transport resend, for each NACK, exactly the packets then cached, named by it, and not retransmitted in the 80 ms before, each as cached |
| `RetransmitRuns.CheckpointForgets` | core/src/cast_transport.cc:664-676 | A believed checkpoint drops exactly its stream's frames and retransmission times up to the limit |
| `RetransmitRuns.RecordsAreRetransmissions` | core/src/cast_transport.cc:517-523 | Every suppression record is the time of an actual earlier retransmission |
| `Transport.CastTransport.SendPackets` | core/src/cast_transport.cc:219-319 | The frame is cached before anything is sent, every packet is paced, the call ends in bounded time for a lone sender, counters and report follow the packets that went out, also when the transport is stopped at any point of the call; frame and report go under the SSRC, timestamp and media kind the header was made with |
| `Transport.CastTransport.SendEach` | core/src/cast_transport.cc:259-300 | The loop counts exactly the packets handled before a stop is noticed, and knows whether the stop abandons the call |
| `Transport.HeaderReads` | core/src/cast_transport.cc:222-235 | For every RTP header the transport reads the stream, the timestamp, and audio exactly for payload type 127 |
| `Transport.FiledAs` | core/src/cast_transport.cc:239-254 | A frame with a given header is filed under its SSRC alone: other streams are untouched, and a frame newer than the stream's is there with its packets |
| `Transport.ReportedAsEncoded` | core/src/cast_transport.cc:303-309 | A report sent with a frame carries its SSRC and its timestamp advanced on the clock of its media |
| `Transport.CastTransport.CachePackets` | core/src/cast_transport.cc:239-254 | Filing a frame and evicting the oldest ones is the transition `CacheFrame` |
| `Transport.CastTransport.DropOldest` | core/src/cast_transport.cc:250-253 | Eviction keeps the newest frames |
| `Transport.CastTransport.DropAcknowledged` | core/src/cast_transport.cc:664-668 | Erasing from the oldest frame on removes exactly the ids up to the limit |
| `Transport.CastTransport.ConsumePacingTokens` | core/src/cast_transport.cc:483-501 | The bucket refills by elapsed time up to the burst and grants exactly when it holds the asked tokens |
| `Transport.CastTransport.AcquireToken` | core/src/cast_transport.cc:262-285 | The pacing loop of a lone sender ends after at most one sleep of 200 microseconds, with exactly one token taken |
| `Transport.LoneSenderSucceeds` | core/src/cast_transport.cc:276-284 | Sleeping the computed wait makes the next attempt succeed |
| `PacerRuns.WindowBound` | core/src/cast_transport.cc:483-501 | In every window of every run at most a burst plus the refill of the window is granted |
| `PacerRuns.IntervalWithinBurstIff` | core/src/cast_transport.cc:262-285 | The comment on the pacing loop holds exactly when: every run of one-packet calls inside the 2 ms from t0 is granted at most one burst if and only if the bucket has no token left at t0 |
| `PacerRuns.TwoBurstsInOneInterval` | core/src/cast_transport.cc:262-285 | From any bucket full at t0 one-packet calls inside the 2 ms get 20 packets through, which is the window bound |
| `PacerRuns.BurstAfterInterval` | core/src/cast_transport.cc:262-285 | n calls at t0 and a burst 2 ms later are all granted when the bucket holds n tokens at t0 |
| `Transport.CastTransport.RetransmitPacket` | core/src/cast_transport.cc:503-535 | The packets to resend are the due ones, in id order, each the cached packet, and exactly their times are recorded |
| `Transport.CastTransport.ApplyCheckpoint` | core/src/cast_transport.cc:653-677 | A checkpoint drops cached frames and suppression records together |
| `Transport.CastTransport.HandleFeedback` | core/src/cast_transport.cc:636-683 | One RTCP packet applies its checkpoint before its NACKs, and each NACK resends, in id order, exactly the packets due in the cache after those before it |
| `Transport.CastTransport.AnswerNacks` | core/src/cast_transport.cc:679-683 | The NACK loop |
| `Transport.CastTransport.UpdateEwmaRtt` | core/src/cast_transport.cc:469-481 | 0.8/0.2 and 0.9/0.1 smoothing with the first sample taken as is |
| `Transport.SteadyRoundTrips` | core/src/cast_transport.cc:469-481 | Over n equal round trips the average comes 0.8^n close and the jitter follows in closed form |
| `Transport.CastTransport.MaybeSendSenderReport` | core/src/cast_transport.cc:345-420 | Counters always advance; a report leaves when 40 ms have passed, with the RTP clock advanced to the send instant |
| `SenderReports.PastReportsMapIff` | core/src/cast_transport.cc:367-381 | For reports sent at or after the capture, with sub-microsecond parts r1 of stamp and r2 of latency: the RTP field is within (-1, 2) ticks of the send instant for every whole-microsecond stamp and latency if and only if (r1 + r2) ns is at most 333 at 48 kHz, 222 at 90 kHz |
| `SenderReports.FutureReportsMapIff` | core/src/cast_transport.cc:367-381 | For stamps ahead of the send instant the same holds if and only if r2 - r1 is at most 166 ns at 48 kHz, 111 at 90 kHz |
| `SenderReports.ReportMapsSendInstant` | core/src/cast_transport.cc:367-381 | Each single report with such parts, whole microseconds among them, is within (-1, 2) ticks whatever its latency |
| `SenderReports.PastMisses` | core/src/cast_transport.cc:367-381 | For all other parts a report is two ticks off at every stamp and latency of 104 microseconds past a multiple of 125 (at 90 kHz 11 past a multiple of 100) |
| `SenderReports.FutureMisses` | core/src/cast_transport.cc:367-381 | For all other leads a report is a full tick off at every such lead of a stamp on a whole tick |
| `SenderReports.PastError` | core/src/cast_transport.cc:367-381 | The exact error: what the two tick divisions and the two microsecond divisions drop |
| `SenderReports.FutureError` | core/src/cast_transport.cc:367-381 | The exact error of a stamp in the future |
| `SenderReports.ReportErrorBound` | core/src/cast_transport.cc:367-381 | For all stamps the error stays within (-1, 2) ticks widened by a microsecond per rounding |
| `SenderReports.FieldUnwraps` | core/src/cast_transport.cc:374-381 | The 32-bit field is the un-wrapped tick count modulo 2^32 |
| `SenderReports.NtpMonotone` | core/src/cast_transport.cc:383-387 | The NTP timestamp is strictly monotone in microseconds until its seconds wrap |
| `SenderReports.NtpExact` | core/src/cast_transport.cc:383-387 | Seconds and fraction are the Unix time since 1900 in units of 2^-32 s, rounded down |
| `SenderReports.CountersTotal` | core/src/cast_transport.cc:351-354 | Over every interleaving of streams a stream's packet and byte counters are its own totals modulo 2^32 |
| `SenderReports.LeavesIff` | core/src/cast_transport.cc:356-361 | A frame makes a report leave if and only if none has left for its stream in the 40 ms before |
| `Transport.NtpFractionFits` | core/src/cast_transport.cc:387-387 | The NTP fraction always fits 32 bits |
| `SenderReports.ReportRoundTrip` | core/src/cast_transport.cc:389-417 | A receiver reads back every field of the 28-byte report |
| `Arithmetic.BigEndianRoundTrip` | core/src/cast_transport.cc:389-417 | Big-endian words read back |
| `AudioTimeline.WireTimeline` | core/src/cast_session.cc:799-825 | For any interleaving of captured, muted, idle and keepalive frames with nanosecond stamps at or after the clock origin, transmitted frames have strictly increasing ids, and frames n apart are at least 480n - 1 ticks apart, 480n when the origin is a whole microsecond |
| `AudioTimeline.WholeFramesApartIff` | core/src/cast_session.cc:799-825 | Over every run of such frames the distance is at least 480n ticks if and only if the clock origin is a whole microsecond |
| `AudioTimeline.TransmittedStamps` | core/src/cast_session.cc:799-825 | The stamps of a run in closed form: frame j goes out at the latest of j + 1 frame times past the last emission and of every offered stamp up to its own moved on by the frames since |
| `AudioTimeline.OnTimeKeepsStamps` | core/src/cast_session.cc:801-806 | So frames offered on time keep exactly their own stamps, and are numbered on when nothing fails |
| `AudioTimeline.FrameUsMeans` | core/src/cast_session.cc:799-800 | The frame time in whole microseconds, at 48 kHz when no rate is given |
| `AudioTimeline.EarlyStampsAtZero` | core/src/audio_encoder.cc:64-71 | Stamps before the origin are at tick 0 |
| `AudioTimeline.OneTickShort` | core/src/audio_encoder.cc:64-71 | For every other origin a session sends two frames 479 ticks apart |
| `AudioTimeline.RunInStep` | core/src/cast_session.cc:799-825 | Over every run the transmitted stamps advance by at least 10 ms a frame and ids stay below the encoder's next one, failed encodes and sends included |
| `AudioTimeline.AudioSession.ProcessAudioFrame` | core/src/cast_session.cc:758-826 | The stamp is pinned before encoding, the emit stamp advances only when the frame was sent, the encoder id whenever it was encoded |
| `AudioTimeline.AudioSession.OnCapturedFrame` | core/src/cast_session.cc:752-762 | While muted and streaming a captured frame is replaced by silence stamped now |
| `AudioTimeline.AudioSession.InjectSilenceAudioFrame` | core/src/cast_session.cc:833-841 | A silence frame takes the same path as a captured one |
| `AudioTimeline.AudioEncoder.Encode` | core/src/audio_encoder.cc:41-84 | A frame id is used up only by a successful encode; the origin latches on the first one; the timestamp is ticks since the origin |
| `AudioTimeline.AudioEncoder.Initialize` | core/src/audio_encoder.cc:15-39 | Initialisation restarts frame ids and forgets the origin |
| `AudioTimeline.AudioEncoder.SetClockOrigin` | core/src/audio_encoder.cc:98-101 | The shared origin replaces the latched one |
| `CaptureQueue.RunConserves` | core/src/audio_capture_wasapi.cc:402-448 | Over every run of buffers, idle wakes and discontinuities the emitted frames followed by the queue are exactly the queued samples in order, all frames whole, less than one frame left |
| `CaptureQueue.FlushMeaning` | core/src/audio_capture_wasapi.cc:411-448 | A flush emits all whole frames, stamped one frame duration apart from the queue's start, and leaves less than a frame |
| `CaptureQueue.IdleCatchesUp` | core/src/audio_capture_wasapi.cc:702-725 | After an idle wake the timeline lags now by less than one frame and at most five frames went out |
| `CaptureQueue.IdleEmits` | core/src/audio_capture_wasapi.cc:702-725 | Exactly the whole frames the timeline lags behind go out, five at most; the timeline moves on by them, or past five skips to end now |
| `CaptureQueue.CapturedTimeline` | core/src/audio_capture_wasapi.cc:411-448 | While buffers come in every frame is stamped with the capture instant of its first sample: the stamp of the last buffer that found the queue empty, plus whole frame times |
| `CaptureQueue.FrameIsTenMs` | core/src/audio_capture_wasapi.cc:411-418 | A frame's duration is that of its samples, less than a microsecond short, and exactly 10 ms at whole hundreds of samples a second |
| `CaptureQueue.ReanchorEndsAtBuffer` | core/src/audio_capture_wasapi.cc:775-783 | After a discontinuity the queued part ends within a microsecond of the next buffer's start |
| `CaptureQueue.WasapiAudioCapture.FlushPending` | core/src/audio_capture_wasapi.cc:411-448 | The flush loop is the specification `Flush`, stamping a queue without a start now |
| `CaptureQueue.WasapiAudioCapture.QueueConverted` | core/src/audio_capture_wasapi.cc:563-606 | Converted samples join the queue; a stamp counts only for an empty queue |
| `CaptureQueue.WasapiAudioCapture.EmitSilenceFrames` | core/src/audio_capture_wasapi.cc:402-409 | Silence joins the queue like captured samples |
| `CaptureQueue.WasapiAudioCapture.OnIdleWake` | core/src/audio_capture_wasapi.cc:702-725 | The idle branch queues exactly the silence of the specification `Idle` |
| `CaptureQueue.WasapiAudioCapture.OnDiscontinuity` | core/src/audio_capture_wasapi.cc:771-783 | An empty queue loses its start, a partial one is restamped |
| `FrameCrypto.NoKeystreamReuse` | core/src/cast_session.cc:295-297 | Over every run of negotiations and encrypted audio frames no two bytes sent are encrypted under the same key stream byte, given fresh keys per negotiation and payloads below 2^31 bytes |
| `FrameCrypto.KeystreamNotShared` | core/src/frame_crypto.cc:28-38 | Under one key and mask no two bytes of any frames, or of one, share a key stream byte: some cipher encrypts zeros differently there |
| `FrameCrypto.CryptedIsCounterMode` | core/src/frame_crypto.cc:28-38 | Encryption is counter mode as NIST SP 800-38A writes it, block by block from the nonce, for every cipher |
| `FrameCrypto.NonceUnmasked` | core/src/frame_crypto.cc:17-26 | The nonce without its mask is the frame id times 2^32 |
| `FrameCrypto.BigEndianIsValue` | core/src/frame_crypto.cc:19-22 | The bytes of a word, the first worth most, are its value |
| `FrameCrypto.NoCounterReuse` | core/src/cast_session.cc:295-297 | Over every run of negotiations and encrypted audio frames no counter block is used twice under one key, given fresh keys per negotiation and payloads below 2^31 bytes |
| `FrameCrypto.CountersDistinct` | core/src/frame_crypto.cc:17-31 | Under one mask counter blocks of different frames, or different blocks of a frame, never coincide |
| `FrameCrypto.DecryptInvertsIff` | core/src/frame_crypto.cc:34-49 | For any block cipher decryption undoes encryption if and only if every byte past the length the cipher call sees is zero; below 2^31 bytes there is none |
| `FrameCrypto.NonceInjective` | core/src/frame_crypto.cc:17-26 | Different frame ids give different nonces under any mask |
| `FrameCrypto.RunNumbered` | core/src/audio_encoder.cc:32-32 | Within a negotiation encryptions carry increasing frame ids, and distinct negotiations distinct keys |
| `FrameCrypto.FrameCrypto.MaskedNonce` | core/src/frame_crypto.cc:17-26 | The nonce array is the frame id at offset 8, big-endian, xored with the mask |
| `FrameCrypto.FrameCrypto.Crypt` | core/src/frame_crypto.cc:14-41 | The output is the data xored with the counter-mode key stream, or zeros when no cipher context could be allocated |
| `FrameCrypto.FrameCrypto.Encrypt` | core/src/frame_crypto.cc:43-56 | Encryption is the key stream over the plain bytes, zeros without a context |
| `FrameCrypto.FrameCrypto.Decrypt` | core/src/frame_crypto.cc:47-63 | The output is the same operation, and what was encrypted under the same key, mask and id comes back below 2^31 bytes |
| `CastChannel.FramingRoundTripIff` | core/src/cast_channel.cc:404-414 | A list of messages survives framing and reassembly if and only if each has 1 to 1048576 bytes |
| `CastChannel.TakenAll` | core/src/cast_channel.cc:372-382 | Writes that never fail take a whole packet below 2^31 bytes, however little each accepts |
| `CastChannel.ReassemblesUntilError` | core/src/cast_channel.cc:369-384 | After any partial write the receiver sees exactly the whole messages before it, in lock order |
| `CastChannel.DeliveredIsPrefix` | core/src/cast_channel.cc:652-721 | At any point of the stream the messages delivered are a prefix of those sent |
| `CastChannel.DeliveredBeforeError` | core/src/cast_channel.cc:369-384 | On a wire cut anywhere in the message that failed, wherever reading stops, a prefix of the sent messages comes out, and all of them once their bytes are consumed |
| `CastChannel.CastChannel.ReceiveLoop` | core/src/cast_channel.cc:652-721 | For any read chunking with transient retries the loop delivers exactly the decoding of the bytes consumed, consumes what the reads bring, and stops only for exhausted reads, a lost connection or a refused length; on a sender's wire, cut by a write error, that is a prefix of the messages sent, and all once their bytes are consumed |
| `CastChannel.CastChannel.ReadBytes` | core/src/cast_channel.cc:660-688 | A header or body read collects exactly the next bytes of the stream over any reads |
| `CastChannel.CastChannel.SendRawPacket` | core/src/cast_channel.cc:369-384 | Exactly the bytes the TLS layer took are on the wire, each write called with the remaining length cast to int, and success means all of them |
| `CastChannel.CastChannel.SendCastMessage` | core/src/cast_channel.cc:386-421 | Until the first write error the wire is the framing of the messages sent, in lock order, and that error leaves part of one more |
| `Redaction.RedactSecrets` | core/src/cast_channel.cc:31-49 | The filter ends on every string; in its result every occurrence of either key with a later colon and quoted string has the value `<redacted>`; nothing but such values was changed |
| `Redaction.RedactKey` | core/src/cast_channel.cc:36-47 | One pass hides one key's values and keeps the other key's hidden |
| `Redaction.FewerQuotes` | core/src/cast_channel.cc:44-45 | A replacement, although it can lengthen the text, leaves fewer quotes ahead: the pass ends |
| `Redaction.OccurrenceMoves` | core/src/cast_channel.cc:44-44 | A replacement creates no new occurrence of a key |
| `Redaction.PrefixHidden` | core/src/cast_channel.cc:44-44 | A replacement hides the values that share its colon and keeps earlier ones hidden |
| `Redaction.SuffixHidden` | core/src/cast_channel.cc:44-44 | A replacement keeps values behind it hidden |
| `Redaction.PassAdvances` | core/src/cast_channel.cc:39-46 | After a replacement everything before the resume position is hidden |
| `Redaction.PassKeepsOther` | core/src/cast_channel.cc:36-47 | The pass for one key keeps the other key's values hidden |
| `DeviceDiscovery.ParsesWellFormed` | core/src/device_discovery.cc:691-753 | The walk of any well-formed response, whatever bytes follow, visits exactly its records in order |
| `DeviceDiscovery.ResponseYieldsTxt` | core/src/device_discovery.cc:718-753 | A well-formed response with any number of TXT records yields exactly their non-empty strings as encoded, in record order |
| `DeviceDiscovery.ResponseYieldsAddress` | core/src/device_discovery.cc:741-751 | A well-formed response yields its first address record and the last Cast control port of its service records, 8009 without one |
| `DeviceDiscovery.TruncatedResponse` | core/src/device_discovery.cc:718-753 | A response cut short anywhere among its records yields exactly the records that are whole |
| `DeviceDiscovery.TxtStringsOccur` | core/src/device_discovery.cc:731-740 | On arbitrary bytes every string found is there with its length in front, and none is empty |
| `DeviceDiscovery.Be16IsBigEndian` | core/src/device_discovery.cc:706-709 | Sixteen-bit fields are the low half of big-endian words |
| `DeviceDiscovery.TxtRoundTrip` | core/src/device_discovery.cc:730-740 | TXT data gives back its non-empty strings |
| `DeviceDiscovery.SkipNameIff` | core/src/device_discovery.cc:672-687 | The skip lands behind a well-formed name, plain or ending in a compression pointer, if and only if it has at most 100 labels |
| `DeviceDiscovery.SkipName` | core/src/device_discovery.cc:672-687 | A name of at most 100 labels is skipped exactly |
| `DeviceDiscovery.SkipPrintedName` | core/src/device_discovery.cc:563-591 | Skipping the name of a printed query lands on QTYPE |
| `DeviceDiscovery.PrintedQueryIsQuestion` | core/src/device_discovery.cc:563-591 | A printed query is a message with exactly one PTR question in the format of the header and question section, and is ignored when it comes back |
| `DeviceDiscovery.AppendLabels` | core/src/device_discovery.cc:579-584 | The label loop prints the encoding of the labels |
| `DeviceDiscovery.SkipDnsName` | core/src/device_discovery.cc:672-687 | The loop is the specification `Skip` on arbitrary bytes, with every index in bounds |
| `DeviceDiscovery.SkipQuestionSection` | core/src/device_discovery.cc:712-716 | The question loop on arbitrary bytes |
| `DeviceDiscovery.WalkRecords` | core/src/device_discovery.cc:718-753 | The record loop on arbitrary bytes: TXT, first A record, last Cast port |
| `DeviceDiscovery.ReadTxt` | core/src/device_discovery.cc:731-740 | The TXT loop reads the strings of the record data |
| `DeviceDiscovery.ProcessMdnsResponse` | core/src/device_discovery.cc:691-753 | Ends on arbitrary bytes with every index in bounds and gathers what the walk specifies |
| `DeviceDiscovery.BuildQuery` | core/src/device_discovery.cc:563-591 | The printed bytes are the encoding of a PTR question |
| `DeviceDiscovery.ParseTxtRecord` | core/src/device_discovery.cc:491-527 | Exactly the keys of usable entries are present, each with the value of its first entry |
| `CallbackShutdown.ShutdownQuiesces` | core/src/c_api.cc:359-391 | If after the registrations are dropped the wait finds no callback in flight, then from then on in every interleaving every running callback and every registration was made after the drop |
| `CallbackShutdown.DropAloneEnoughIff` | core/src/c_api.cc:366-386 | Without the wait, right after the drop nothing older runs if and only if no callback was in flight at it |
| `CallbackShutdown.DropAloneIsNotEnough` | core/src/c_api.cc:366-375 | A callback can be in flight at the drop |
| `CallbackShutdown.CounterCounts` | core/src/c_api.cc:51-61 | For any number of threads and any interleaving the counter is the number of invocations between registration read and scope exit |
| `CallbackShutdown.PredicateMeansQuiet` | core/src/c_api.cc:383-391 | The wait's predicate holds if and only if no thread is inside a callback |
| `CallbackShutdown.DispatchRunsLatest` | core/src/c_api.cc:275-342 | A dispatch runs the client registered last for the kind, and nobody after an unregistration or a drop of everything |
| `CallbackShutdown.CallbackState.SetCallback` | core/src/c_api.cc:566-588 | Registration and unregistration under the lock |
| `CallbackShutdown.CallbackState.EnterCallback` | core/src/c_api.cc:275-342 | The registration read and the increment are one step |
| `CallbackShutdown.CallbackState.LeaveCallback` | core/src/c_api.cc:51-61 | The decrement wakes shutdown exactly when no callback is left |
| `CallbackShutdown.CallbackState.DropRegistrations` | core/src/c_api.cc:366-375 | All four registrations are dropped |
| `CallbackShutdown.CallbackState.Idle` | core/src/c_api.cc:383-386 | The predicate is true exactly when no callback runs |
| `GpuProcessor.FitsInside` | core/src/gpu_processor.cc:74-82 | For all positive sizes the luma and the halved chroma rectangle lie inside their planes, every offset and size even |
| `GpuProcessor.Centred` | core/src/gpu_processor.cc:81-82 | The bars on opposite sides differ by at most three pixels, the right and bottom ones being no smaller |
| `GpuProcessor.ChromaMatchesLuma` | core/src/gpu_processor.cc:180-187 | A chroma sample is in its rectangle, planar or interleaved, exactly when the luma pixels it belongs to are |
| `GpuProcessor.AspectKept` | core/src/gpu_processor.cc:74-79 | Unless the two-pixel minimum decided, one dimension fills the frame and the aspect error stays below the two-pixel rounding |
| `GpuProcessor.ScaleMeetsFrame` | core/src/gpu_processor.cc:74-75 | The scale never exceeds the frame and meets it in one dimension |
| `GpuProcessor.GpuProcessor.Initialize` | core/src/gpu_processor.cc:65-151 | The fit of the sizes is stored on success, and nothing changes on failure |
| `GpuProcessor.GpuProcessor.EnsureSource` | core/src/gpu_processor.cc:153-162 | A changed source size refits into the same frame size |
| `GpuProcessor.GpuProcessor.ConvertBgraToYuv420p` | core/src/gpu_processor.cc:164-192 | Each plane ends up the picture inside its fitted rectangle and black elsewhere, pixel by pixel |
| `GpuProcessor.GpuProcessor.ConvertBgraToNv12` | core/src/gpu_processor.cc:194-266 | The same for NV12 with interleaved chroma, from a BGRA or a mapped NV12 source; a frame in hardware memory alone is refused |
| `GpuProcessor.DrawPlane` | core/src/gpu_processor.cc:174-188 | Background fill and scaled rows from the start offset compose to the letterboxed plane |

## Left out

- AdaptiveRuns.ReachableBounds: no bound on the bitrate after adaptation was off, because a downshift then ignores the caps (`AdaptiveRuns.DisabledDownshiftCappedIff`).
- AdaptiveConvergence.SessionRecovers: caps of at most 2^32 - 500 kbps, because above that a ramp wraps (`AdaptiveConvergence.RampNeverDropsIff`).
- AdaptiveConvergence.CleanRunConverges: without a hold target the final bitrate is stated for states whose ceiling has counted every clean evaluation; every state a session reaches is one (`AdaptiveConvergence.SoundReached`).
- AdaptiveRuns.DownshiftsAreApart: positive evaluation intervals; the interval is 1000 ms and only a test hook changes it.
- RetransmitRuns.CacheLosesOnly: frame ids and checkpoints below 2^31, because past it the checkpoint rule is false (`RetransmitRuns.EraseLimitSafeIff`).
- Transport.CastTransport.AcquireToken: a lone sender; threads competing for tokens have no bound on their wait, only on what they are granted (`PacerRuns.WindowBound`).
- Transport.CastTransport.SendPackets: no other thread competes for tokens during the call; per-frame diagnostics are not modelled.
- AudioTimeline.WireTimeline: the un-wrapped timestamps between two negotiations, for 480-sample 48 kHz frames, with fewer than 2^32 frames; the clock origin is not before the steady clock's epoch.
- CaptureQueue.WasapiAudioCapture.QueueConverted: takes converted samples; the resampler and the sample format conversion are floating-point code.
- DeviceDiscovery.ProcessMdnsResponse: the fallback key scan of a response without TXT data and the device list it feeds are not modelled; an address is its four bytes, not its text.
- DeviceDiscovery.ParseTxtRecord: the guard against values over 255 bytes is dropped, because entries over 255 bytes are already ignored.
- CastChannel.CastChannel.ReceiveLoop: a message is its bytes; protobuf parsing and the callbacks are not modelled, nor is a stop request between reads other than as the reads running out.
- GpuProcessor.GpuProcessor.Initialize: the scale is exact; rounding of doubles could move a fitted size by two pixels.
- GpuProcessor.GpuProcessor.ConvertBgraToYuv420p: what the scaler paints is a parameter; null buffers and the overload that allocates its buffers are not modelled.
- GpuProcessor.GpuProcessor.ConvertBgraToNv12: what the scaler paints is a parameter; null buffers are not modelled.
- CallbackShutdown.ShutdownQuiesces: the wait is bounded by two seconds in the code; when it times out nothing is promised, and the code logs that.
- Session lifecycle, reconnect, capability tables, negotiation, packetising and RTCP parsing: parsed feedback and packet lists are inputs.
- Sockets, TLS, Opus, scaling, capture devices, discovery sockets, configuration, statistics and the user interfaces: calls into other systems or plumbing.
- The heartbeat and device authentication of the control channel: no arithmetic or state beyond what is modelled.
