# Occupancy counting: verified models

A verification project for the parts of the repository that count people and move bytes.  Each part is
modelled in the form it has in the source - classes over arrays and fields where the code updates them in
place, functions where it computes - and the properties it is meant to have are proved for all inputs.

- **Tracker** (`Tracker`, `TrackerSafety`, `TrackerScripts`, `TrackerWalks`, `TrackerLaws`, `TrackerOverlap`,
  `OccupancyCounter`): the ring of frames, the glitch filter, matching of bodies to persons, directions,
  retirement and the count of `src/OccupancyCounter.cpp` as a state machine over frames, and a class `Counter` whose methods refine it.  A step's input is what the
  vision code reports: the side of the frame and its bodies with side and centre.
- **Blobs** (`Components`, `Blobs`, `BodyExtraction`): thresholding, flood fill, connected components and the
  choice of the two largest blobs on a square grid.
- **libftdi** (`Deframing`, `FtdiRead`): stripping of the two status bytes of every USB packet in the three
  readers; (`Baud`): baud rate divisors; (`Eeprom`, `EepromRoundTrip`, `EepromFixpoint`, `EepromSheet`,
  `EepromLayout`, `EepromContext`): the EEPROM image.
- **libiconv** (`C99`, `Big5Hkscs`, `Big5HkscsConverter`): an escape codec and a codec with one character of
  lookahead.  The BIG5 and HKSCS tables are parameters assumed to invert each other, to share no code outside
  the rows left to HKSCS, to map only U+00CA and U+00EA to 88 66 and 88 A7, and not to hold the four composed codes.
- **Frame buffer** (`FrameBuffer`): the bounded buffer of `src/buffer.cpp` under any interleaving.
- **JID** (`Jid`): parser and printer of `libextendxmpp/XMPPUtils.cc`.

Methods are tied by their `ensures` to specification functions; the lemmas named below are about these.
Where a property holds only sometimes, the lemma says exactly when.

Where code and comments differ, the model follows the code: two newcomers in one frame can get directions at
once (`src/OccupancyCounter.cpp:702-782`); with two persons in view bodies go to them from left to right, so
that somebody coming in behind a person who crosses from left to right can be counted too (lines 774 and 835); the test at `src/OccupancyCounter.cpp:635` guards a log line only;
`c99.h` takes any ASCII letter in an escape for a digit (lines 53 and 55); the AM divisor search is not nearest
between 2250001 and 2666666; the stream reader's byte total is one too small for a transfer that ends in a
packet of one byte; the cap at 0x20000 in `ftdi_to_clkbits` is never reached; EEPROM strings are cut to their
length modulo 256, not refused; of the return codes announced for `ftdi_eeprom_build`, -3, -4 and -5 do not occur.

## Model

| member | source | states |
|---|---|---|
| `TrackerSafety.Conservation` | src/OccupancyCounter.cpp:454-484 | Over every run from an empty start: the count has moved by the persons counted right-to-left minus those counted left-to-right, every counted passage has one of the two directions, and no person (`static_id`) is counted twice, even after his trajectory was trimmed or he was erased. |
| `TrackerSafety.RunKeepsInvariant` | src/OccupancyCounter.cpp:1377-1387 | Every run keeps the state invariant: at most 4 persons, with increasing ids below `total_people`, non-empty key-sorted trajectories, nobody with status LEFT, nobody more than 7 frames past his last entry or as long as the trimming length, counted exactly if in the history of passages, and the ring holding exactly the last frames. |
| `TrackerSafety.StepKeepsInvariant` | src/OccupancyCounter.cpp:1377-1387 | The same for one processed frame, whatever bodies it shows. |
| `TrackerSafety.RunDescends` | src/OccupancyCounter.cpp:874-888 | Over every run the direction of a person and whether he was counted are written at most once: whoever is still in the list has the direction and the mark he had, once he had one, and passages are only ever added. |
| `TrackerSafety.StepDescends` | src/OccupancyCounter.cpp:874-888 | The same for one frame. |
| `TrackerSafety.NetCountsPassages` | src/OccupancyCounter.cpp:454-484 | The sum of the single changes of the count is the number of right-to-left passages minus the number of left-to-right ones. |
| `TrackerSafety.UsableFrameIsFiveBack` | src/OccupancyCounter.cpp:615-620 | A frame let through by `correct_frame` is the valid frame processed five rounds earlier, never an empty slot or a stale one, and correction does not disturb the ring. |
| `TrackerSafety.MatchKeepsCore` | src/OccupancyCounter.cpp:615-873 | All branches of `match_body_person` together never make the list longer than 4 and keep ids, trajectories and the account in order. |
| `TrackerSafety.UpdateStatusKeepsCore` | src/OccupancyCounter.cpp:492-523 | The backward loop of `update_people_status` retires or trims everybody it must: afterwards nobody is overdue, and the account still balances. |
| `TrackerWalks.SingleWalker` | src/OccupancyCounter.cpp:615-639 | From a quiet scene, one body per frame for any number of frames and then eight empty ones: the scene is quiet again and the count has changed by exactly one in the right direction if the person crossed, by nothing if he stayed on his side or was a blip of a single frame. |
| `TrackerWalks.VisitRun` | src/OccupancyCounter.cpp:492-523 | At every frame of such a visit: who is tracked, with which trajectory and direction, and what the count is; matching lags five frames behind and the walker is retired eight frames after the last body. |
| `TrackerWalks.WalkersInTurn` | src/OccupancyCounter.cpp:1377-1387 | Any schedule of such visits and idle frames, one after the other, changes the count by the sum of the single outcomes. |
| `TrackerWalks.InitialIsQuiet` | src/OccupancyCounter.cpp:281-284 | A counter just constructed is a quiet scene, so the walker theorems hold from the first frame on. |
| `TrackerScripts.OnlyTheBlipIsDropped` | src/OccupancyCounter.cpp:587-614 | While a sequence of observations is processed in which at most one frame is to be dropped (its number of bodies differs from the next, that of the frame before does not), the glitch filter drops that frame and no other. |
| `TrackerScripts.CorrectionKeepsWindow` | src/OccupancyCounter.cpp:587-620 | The frame that matching looks at is the one five back, with its own bodies; it is used unless it is the one to be dropped. |
| `TrackerScripts.Verdict` | src/OccupancyCounter.cpp:587-614 | On any ring: a frame is used if and only if it is valid and not a glitch, that is, the next frame has as many bodies or the frame compared has not as many as the next; compared is the nearest earlier valid frame or the eleventh back; a dropped frame, and only it, is marked invalid. |
| `TrackerWalks.StatusOfTheWalk` | src/OccupancyCounter.cpp:454-523 | The status update keeps the walker while he is followed and retires and counts him at the right frame. |
| `TrackerWalks.IdleStep` | src/OccupancyCounter.cpp:615-623 | An empty frame on a quiet scene changes nothing. |
| `TrackerOverlap.OneCrossesWhileAnotherEnters` | src/OccupancyCounter.cpp:701-869 | Somebody waits on one side for any number of frames, then for any number of frames he is across and a second body is where he came from: as long as the one further left in each later frame is the one across, he alone is counted, once and in his direction, and thirteen frames later the scene is quiet. |
| `TrackerOverlap.WrongOrderDirectsTheSecond` | src/OccupancyCounter.cpp:762-869 | Once the first has crossed, a frame with one body at either side gives the second person a direction if and only if the body across is not the one further left: then the second would be counted too. |
| `TrackerLaws.OneCrossesAnotherEnters` | src/OccupancyCounter.cpp:707-735 | One undirected person, two bodies, one of them opposite to where he began: he takes that body and gets the direction; the other body starts a person with the next number, its own side and no direction. |
| `TrackerLaws.TwoBodiesOneUndirected` | src/OccupancyCounter.cpp:715-735 | The same for any sides of the two bodies: the first body across is his, the other is a newcomer, and with none across nothing happens. |
| `TrackerLaws.TwoBodiesOneDirected` | src/OccupancyCounter.cpp:736-761 | With a known direction: the body where he came from is a newcomer, he takes the other; with none there nothing happens. |
| `TrackerLaws.TwoBodiesNotBothDirected` | src/OccupancyCounter.cpp:773-845 | Two persons, not both directed: the one who has been there longer takes the body further left, the other one the other. |
| `TrackerLaws.TwoBodiesBothDirected` | src/OccupancyCounter.cpp:813-833 | Two directed persons heading the same way: every body where they came from is a newcomer; heading different ways: nothing. |
| `TrackerLaws.TwoBodiesNobody` | src/OccupancyCounter.cpp:701-870 | Nobody tracked: both bodies are newcomers and the same bodies are then matched to whoever was admitted. |
| `TrackerLaws.OneBodyAtMostOnePerson` | src/OccupancyCounter.cpp:625-639 | One body, at most one person: his if he has no direction or is heading there, otherwise a newcomer. |
| `TrackerLaws.OneBodyTwoUndirected` | src/OccupancyCounter.cpp:655-664 | One body, two undirected persons: the first who did not begin on that side. |
| `TrackerLaws.OneBodyTwoDirected` | src/OccupancyCounter.cpp:666-687 | One body, two directed persons: the first heading for that side, or else a newcomer. |
| `TrackerLaws.OneBodyOneUndirected` | src/OccupancyCounter.cpp:688-696 | One body, two persons, one directed: the other one takes it. |
| `TrackerLaws.Crowds` | src/OccupancyCounter.cpp:698-700 | More than two persons or bodies, or no body: nothing is matched. |
| `TrackerLaws.Newcomer` | src/OccupancyCounter.cpp:557-585 | A newcomer gets the next number and one entry; an unknown side is that of the most recent of the eleven frames before with a known side, and without one nobody is admitted. |
| `TrackerLaws.Heads` | src/OccupancyCounter.cpp:874-888 | A direction is given exactly to those without one who were last seen opposite to where they began. |
| `TrackerLaws.CrowdIsCounted` | src/OccupancyCounter.cpp:511-518 | When more than two persons are left after a frame, everybody among them with a direction has been counted. |
| `TrackerWalks.NewcomersTogether` | src/OccupancyCounter.cpp:701-782 | Two bodies on known sides that turn up in one frame with nobody tracked are admitted and matched once more in the same call; they get a direction at once if and only if they stand on different sides and the second lies left of the first. |
| `Tracker.BackFindsNearestValid` | src/OccupancyCounter.cpp:593-605 | The backward search of `correct_frame` ends at the nearest earlier valid frame, or at the eleventh frame back if the ten before are invalid. |
| `Tracker.PutIsMapUpdate` | src/OccupancyCounter.cpp:632 | Storing under a key adds or replaces that one entry, keeps all others and the key order (`std::map`). |
| `Tracker.PutEnds` | src/OccupancyCounter.cpp:876-885 | Which entries are first and last in a trajectory after storing one, from which directions are read. |
| `Tracker.MatchKeepsTracked` | src/OccupancyCounter.cpp:615-873 | Matching never leaves a person with an empty trajectory, so `begin()` and `rbegin()` always exist. |
| `OccupancyCounter.Counter.CorrectFrame` | src/OccupancyCounter.cpp:587-614 | The loop over earlier frames in place: the frames and the verdict are those of the specification. |
| `OccupancyCounter.Counter.CreateNewPerson` | src/OccupancyCounter.cpp:557-586 | In place: side taken from the most recent of eleven frames with a known side, nobody admitted if there is none; id, list and total as specified. |
| `OccupancyCounter.Counter.ExtendTrajectory` | src/OccupancyCounter.cpp:632 | In place: one entry stored in the trajectory of one person, nothing else changed. |
| `OccupancyCounter.Counter.MatchOneBody` | src/OccupancyCounter.cpp:625-700 | The branches for one body, in place, perform exactly the actions of the specification. |
| `OccupancyCounter.Counter.MatchTwoBodiesToOne` | src/OccupancyCounter.cpp:707-761 | The branches for two bodies and one person. |
| `OccupancyCounter.Counter.MatchTwoBodiesToTwo` | src/OccupancyCounter.cpp:762-869 | The branches for two bodies and two persons. |
| `OccupancyCounter.Counter.MatchBodies` | src/OccupancyCounter.cpp:625-870 | All cases, with the fall-through after case 4. |
| `OccupancyCounter.Counter.MatchBodyPerson` | src/OccupancyCounter.cpp:615-873 | The whole of `match_body_person` on the class refines the state function on which the run properties are proved. |
| `OccupancyCounter.Counter.UpdatePeopleDirection` | src/OccupancyCounter.cpp:874-888 | The loop writes a direction where it was unknown and first and last side differ, and nowhere else. |
| `OccupancyCounter.Counter.CheckTrajectory` | src/OccupancyCounter.cpp:454-484 | Count, mark and history change exactly when the person has a direction and is not yet counted. |
| `OccupancyCounter.Counter.UpdateStatusAt` | src/OccupancyCounter.cpp:496-519 | One round of the loop, in place. |
| `OccupancyCounter.Counter.UpdatePeopleStatus` | src/OccupancyCounter.cpp:492-523 | The backward loop with erasures refines the recursive specification; the result says whether somebody was counted. |
| `OccupancyCounter.Counter.ProcessFrame` | src/OccupancyCounter.cpp:1377-1387 | Store, match and update on the class are one `Step` of the state machine. |
| `OccupancyCounter.Counter.constructor` | src/OccupancyCounter.cpp:281-284 | The counter starts in the initial state of the state machine. |
| `Blobs.ConnectedC` | src/OccupancyCounter.cpp:1133-1161 | On any N by N mask: an exact partition of the foreground into its 8-connected components; every component once, every pixel once, no contour empty. |
| `Blobs.Bfs` | src/OccupancyCounter.cpp:1094-1132 | From an unseen pixel: returns exactly its component, without duplicates, disjoint from what was found before, and marks exactly these pixels. |
| `Blobs.SeenFits` | src/OccupancyCounter.cpp:1110-1129 | A pixel is enqueued at most once: result and queue together never exceed the foreground, which is why the loop ends. |
| `Blobs.FloodFinds` | src/OccupancyCounter.cpp:1110-1131 | When the queue is empty the result is connected and cannot be extended: one whole component. |
| `Blobs.PushNeighbours` | src/OccupancyCounter.cpp:1116-1127 | The inner loops mark and enqueue exactly the foreground neighbours not yet seen. |
| `Blobs.ListComponentAt` | src/OccupancyCounter.cpp:1152-1156 | One round of the scan keeps the list a partition of the pixels done so far into components. |
| `Blobs.Threshold` | src/OccupancyCounter.cpp:1075-1093 | The pixels set are exactly those at or above the threshold. |
| `Components.ComponentsEqualOrDisjoint` | src/OccupancyCounter.cpp:1133-1161 | Two components are equal or share no pixel. |
| `Components.ComponentOf` | src/OccupancyCounter.cpp:1094-1132 | Every foreground pixel lies in a component. |
| `Components.PartitionHasComponent` | src/OccupancyCounter.cpp:1133-1161 | A partition into components leaves no component out. |
| `Components.InsideExactlyOne` | src/OccupancyCounter.cpp:1201-1207 | Raising the threshold refines the blobs: each component of the smaller foreground lies inside exactly one listed component of the larger. |
| `BodyExtraction.ConvertContourToBody` | src/OccupancyCounter.cpp:1018-1048 | At most two bodies, made from the largest eligible contours (at least 20% of the area), larger first, each with its `cx`; with ties any choice that fits. |
| `BodyExtraction.Shares` | src/OccupancyCounter.cpp:1025 | Eligible is a contour of at least a fifth of the image, too large one of more than three fifths. |
| `BodyExtraction.BestTwoSizes` | src/OccupancyCounter.cpp:1023-1034 | However ties are broken, number and sizes of the chosen contours are the same. |
| `BodyExtraction.InitBody` | src/OccupancyCounter.cpp:1004-1016 | `cx` is the middle between the leftmost column, taken as 8 if it is beyond, and the rightmost. |
| `BodyExtraction.BodiesAt` | src/OccupancyCounter.cpp:1203-1211 | At one threshold: the bodies are the two largest large-enough components of the thresholded image, and disjoint. |
| `BodyExtraction.ExtractBody` | src/OccupancyCounter.cpp:1193-1220 | The bodies are those of the first of eleven levels at which there is not just one blob that is too large, or of the last level; at every lower level there was such a blob. |
| `BodyExtraction.SettlesOnce` | src/OccupancyCounter.cpp:1201-1217 | There is only one such level. |
| `BodyExtraction.SplittingStaysInside` | src/OccupancyCounter.cpp:1201-1217 | Whatever large component a higher threshold leaves lies inside the one blob that was too large. |
| `BodyExtraction.BodiesInsideEarlierBlob` | src/OccupancyCounter.cpp:1201-1217 | So do all bodies returned after levels were skipped. |
| `Deframing.ReadsDeliverEverything` | Resources/libftdi1-1.2/src/ftdi.c:1750-1861 | Over any sequence of reads on any transfers: the bytes returned so far followed by the pending ones are the bytes pending at first followed by all packets received, in order, each without its first two bytes; an error is that of the last transfer made. |
| `Deframing.ReadConserves` | Resources/libftdi1-1.2/src/ftdi.c:1750-1861 | The same for one read. |
| `Deframing.FillStops` | Resources/libftdi1-1.2/src/ftdi.c:1785-1858 | When reading stops: every transfer but the last brought data and left the request unfilled; fewer bytes than asked for are returned only after a transfer without data or when there are no more, and then nothing is left pending. |
| `Deframing.EnoughPending` | Resources/libftdi1-1.2/src/ftdi.c:1763-1775 | A request that the pending bytes can serve makes no transfer. |
| `Deframing.PayloadOfPackets` | Resources/libftdi1-1.2/src/ftdi.c:1805-1820 | Stripping headers from whole packets and from what follows them can be done separately. |
| `Deframing.AsyncAgreesWithSync` | Resources/libftdi1-1.2/src/ftdi.c:1397-1476 | The asynchronous read fills the buffer with the same bytes, leaves the same bytes pending and uses the same transfers as `ftdi_read_data` given those transfers that have more than two bytes. |
| `Deframing.StreamDeliversPayload` | Resources/libftdi1-1.2/src/ftdi_stream.c:73-95 | The blocks passed to the stream callback make up exactly the payload of the transfer; the announced byte total is right if and only if the transfer does not end in a packet of one byte. |
| `FtdiRead.CompactAt` | Resources/libftdi1-1.2/src/ftdi.c:1807-1816 | One more packet moved down: the collected bytes are the payload so far and the rest of the transfer is still in place, so no `memmove` clobbers unread data. |
| `FtdiRead.Context.Compact` | Resources/libftdi1-1.2/src/ftdi.c:1796-1820 | The in-place loop of `memmove`s leaves exactly the payload of the transfer from offset 2 on. |
| `FtdiRead.Context.MemMove` | Resources/libftdi1-1.2/src/ftdi.c:1808-1810 | Overlapping move: the destination gets the old bytes of the source, everything else stays. |
| `FtdiRead.Context.MemCpy` | Resources/libftdi1-1.2/src/ftdi.c:1832 | Bytes copied to the caller, the rest of his buffer untouched. |
| `FtdiRead.Context.TakePending` | Resources/libftdi1-1.2/src/ftdi.c:1766-1770 | Serves a request from the pending bytes alone. |
| `FtdiRead.Context.Fetch` | Resources/libftdi1-1.2/src/ftdi.c:1787-1826 | One bulk read and its compaction: an error, no data, or the payload. |
| `FtdiRead.Context.HandOut` | Resources/libftdi1-1.2/src/ftdi.c:1827-1857 | As much as is wanted goes to the caller, the rest stays pending; offset and remaining stay within the chunk. |
| `FtdiRead.Context.ReadMore` | Resources/libftdi1-1.2/src/ftdi.c:1785-1858 | The read loop refines its specification and never falls through to the `-127` at its end. |
| `FtdiRead.Context.ReadData` | Resources/libftdi1-1.2/src/ftdi.c:1750-1861 | `ftdi_read_data` in place: result, caller's buffer (and what is not written of it), pending bytes and transfers used are those of the specification, error returns included. |
| `FtdiRead.Context.Submit` | Resources/libftdi1-1.2/src/ftdi.c:1583-1649 | A submitted read begins with the pending bytes and is complete if they suffice. |
| `FtdiRead.Context.Callback` | Resources/libftdi1-1.2/src/ftdi.c:1397-1476 | The transfer callback in place is one step of the specification on which agreement with the synchronous read is proved. |
| `FtdiRead.StreamCallback` | Resources/libftdi1-1.2/src/ftdi_stream.c:65-112 | The packet loop makes exactly the specified calls and adds up their lengths. |
| `Baud.AcceptedOnBM` | Resources/libftdi1-1.2/src/ftdi.c:1251-1260 | Outside bitbang mode BM, 2232C and R chips accept exactly the rates 175 to 1575000, 2000000 to 2100000 and 3000000 to 3150000. |
| `Baud.AcceptedOnH` | Resources/libftdi1-1.2/src/ftdi.c:1251-1260 | High-speed chips accept exactly 175 to 6300000, 8000000 to 8400000 and 12000000 to 12600000. |
| `Baud.KnownOnBM` | Resources/libftdi1-1.2/test/baudrate.cpp:155-209 | Settings the unit tests of the library expect on BM, 2232C and R chips, one for every code of a fraction: rate, whole divisor, fraction code and clock. |
| `Baud.KnownOnH` | Resources/libftdi1-1.2/test/baudrate.cpp:211-262 | The same on high-speed chips, with either clock. |
| `Baud.KnownOnAM` | Resources/libftdi1-1.2/test/baudrate.cpp:122-153 | The same on AM chips. |
| `Baud.ClockChoice` | Resources/libftdi1-1.2/src/ftdi.c:1180-1192 | The fast clock is used exactly on high-speed chips from 733 baud up. |
| `Baud.AmSearchIsNearest` | Resources/libftdi1-1.2/src/ftdi.c:1015-1095 | The AM search finds a supported divisor whose rate is nearest to the request among all supported ones if and only if the request is not between 2250001 and 2666666, where it passes over 3000000. |
| `Baud.NearestAt` | Resources/libftdi1-1.2/src/ftdi.c:1025-1079 | The two candidates bracket the exact ratio or hit the cap. |
| `Baud.SettingIsLossless` | Resources/libftdi1-1.2/src/ftdi.c:1165-1215 | The two words sent to the chip determine clock base, divisor and with them the reported rate; the interface number is kept. |
| `Baud.EncodingIsLossless` | Resources/libftdi1-1.2/src/ftdi.c:1156 | Encoded divisors from 2 upward decode to themselves, fit 17 bits and never alias the special codes 0 and 1. |
| `Baud.DivisorFits` | Resources/libftdi1-1.2/src/ftdi.c:1142-1150 | The computed branch always yields 16 to 0x1ffff eighths; the cap at 0x20000, one too many, is the result for no rate. |
| `Baud.HalfStep` | Resources/libftdi1-1.2/src/ftdi.c:1144-1148 | The computed divisor is off by at most half a step. |
| `Baud.CloseRate` | Resources/libftdi1-1.2/src/ftdi.c:1151-1155 | Rounding to the nearest eighth keeps the rate within about 1/32 of the request. |
| `Baud.ToClkbitsAM` | Resources/libftdi1-1.2/src/ftdi.c:1015-1095 | The search loop, with its early exit, returns the divisor and rate of the specification. |
| `Baud.Context.SetBaudrate` | Resources/libftdi1-1.2/src/ftdi.c:1238-1270 | Which requests are refused, fail or succeed, with which code; what is sent; the stored rate changes only on success, to the request or, in bitbang mode, four times the request. |
| `EepromRoundTrip.RoundTrip` | Resources/libftdi1-1.2/src/ftdi.c:2561-3104 | For every chip type but 230X, both sizes and every successful build: reading the image, on whatever context, accepts the checksum and gives back the three strings, vendor and product id and release number (in 16 bits), power flags and, below 512, the power (rounded down to even). |
| `EepromRoundTrip.StringsSurvive` | Resources/libftdi1-1.2/src/ftdi.c:2581-2586 | A string comes back as it was if and only if it has fewer than 256 characters; NULL comes back as "". |
| `EepromRoundTrip.ImageParts` | Resources/libftdi1-1.2/src/ftdi.c:2711-2767 | Configuration bytes and string area are in the image as written: they overlap neither each other nor the checksum, for both sizes. |
| `EepromRoundTrip.ImageChecks` | Resources/libftdi1-1.2/src/ftdi.c:3073-3100 | The checksum stored by a build is the one its reader computes. |
| `EepromFixpoint.BuildAgain` | Resources/libftdi1-1.2/src/ftdi.c:3299-3396 | Build, decode, build on one context: for types after BM the second build succeeds with the same result and size, and its image is byte for byte the first if and only if no pin strength or CBUS value spilled over its place. |
| `EepromFixpoint.NonNegativeIsSettled` | Resources/libftdi1-1.2/src/ftdi.c:2492-2509 | Nothing spills over as long as drive strengths and CBUS functions are not negative: too large values are clamped. |
| `EepromFixpoint.NegativeCbusSpills` | Resources/libftdi1-1.2/src/ftdi.c:2844-2852 | A CBUS function of -1 does spill over. |
| `EepromFixpoint.NoSecondBuildOnOldChips` | Resources/libftdi1-1.2/src/ftdi.c:3300-3303 | On AM and BM decoding forgets the kind of EEPROM, and the next build returns -6. |
| `EepromFixpoint.OneWordIsNoticed` | Resources/libftdi1-1.2/src/ftdi.c:3274-3296 | A change confined to one 16-bit word of an image, the checksum included, always fails the check. |
| `EepromFixpoint.DecodeVerdict` | Resources/libftdi1-1.2/src/ftdi.c:3274-3297 | On any readable buffer decoding returns 0 if the stored word is the checksum of the words before it and -1 otherwise, and then leaves the fields of the particular chip as they were. |
| `EepromFixpoint.ChangedWordIsRefused` | Resources/libftdi1-1.2/src/ftdi.c:3290-3297 | A built image in which one 16-bit word was changed is refused with -1. |
| `EepromFixpoint.ChecksumIs` | Resources/libftdi1-1.2/src/ftdi.c:3073-3097 | The checksum in closed form: 0xAAAA and all words, lower byte first, each rotated left by its distance from the end, combined by exclusive or. |
| `EepromSheet.ImageFollowsSheet` | Resources/libftdi1-1.2/src/ftdi.c:2638-3071 | Every bit of a built image, for each chip type and size: which setting it tells, where ids, power, version, pin groups, CBUS functions, EEPROM kind, directory, strings and PnP bytes are. |
| `EepromSheet.RoomForStrings` | Resources/libftdi1-1.2/src/ftdi.c:2578-2624 | Room for 48, 45, 44, 43 or 40 characters; when a build fails and with which code; which size it settles. |
| `EepromSheet.StringRead` | Resources/libftdi1-1.2/src/ftdi.c:3211-3231 | From any readable buffer: no string for a length below two, otherwise every other byte up to the length or the first NUL. |
| `EepromLayout.BodyInPlace` | Resources/libftdi1-1.2/src/ftdi.c:2626-3071 | All assignments of a build, one after the other, leave the specified image up to the checksum. |
| `EepromLayout.TailWritten` | Resources/libftdi1-1.2/src/ftdi.c:2773-3071 | Writing the CBUS and chip bytes one by one behind the header, with all other bytes left alone, gives exactly the configuration specified for the chip. |
| `EepromContext.Context.Build` | Resources/libftdi1-1.2/src/ftdi.c:2561-3104 | `ftdi_eeprom_build` in place: return code in all cases (-6, -1, bytes left), the size it settles, the whole image on success, an untouched buffer on failure. |
| `EepromContext.Context.PutString` | Resources/libftdi1-1.2/src/ftdi.c:2714-2724 | The masked loop writes one descriptor, at the masked address, and nothing else. |
| `EepromContext.Context.PutStrings` | Resources/libftdi1-1.2/src/ftdi.c:2693-2767 | Three strings, their addresses and lengths, and the PnP bytes. |
| `EepromContext.Context.PutOpening` | Resources/libftdi1-1.2/src/ftdi.c:2638-2688 | The bytes that all chips have. |
| `EepromContext.Context.PutChip` | Resources/libftdi1-1.2/src/ftdi.c:2773-3071 | The bytes of the particular chip; every other byte stays. |
| `EepromContext.Context.SetFt232hCbus` | Resources/libftdi1-1.2/src/ftdi.c:2492-2509 | Five bytes of two clamped pin functions each. |
| `EepromContext.Context.SumUp` | Resources/libftdi1-1.2/src/ftdi.c:3073-3097 | The checksum loop. |
| `EepromContext.Context.ReadString` | Resources/libftdi1-1.2/src/ftdi.c:3213-3229 | A string read back from its address and length, cut at the first NUL; NULL if there is none. |
| `EepromContext.Context.Load` | Resources/libftdi1-1.2/src/ftdi.c:3154-3396 | `ftdi_eeprom_decode` in place: common fields are replaced in any case, chip fields only if the checksum is right. |
| `C99.RoundTrip` | Resources/libiconv-1.11/lib/c99.h:29-125 | Encoding a text and decoding it step by step gives it back if and only if it has no surrogates and no backslash that begins, or might begin, an escape (section 6.4.3 of ISO/IEC 9899:1999); in particular every text without backslash and surrogates. |
| `C99.NameIsRead` | Resources/libiconv-1.11/lib/c99.h:45-89 | Four digits behind backslash and "u", or eight behind backslash and "U", in upper or lower case and whatever follows: the character with the hexadecimal number they write, or an illegal sequence if it may not be named so. |
| `C99.CaseDoesNotMatter` | Resources/libiconv-1.11/lib/c99.h:51-56 | Putting letters of an escape in lower case does not change what is read. |
| `C99.LettersGoOn` | Resources/libiconv-1.11/lib/c99.h:51-58 | Digits are figures and letters; letters count on from A and a, which are 10, even beyond F. |
| `C99.NoName` | Resources/libiconv-1.11/lib/c99.h:42-94 | A backslash stands for itself when no "u" or "U" follows or the digits break off at something that is none; input that breaks off is too short. |
| `C99.PlainBytes` | Resources/libiconv-1.11/lib/c99.h:36-41 | Any other byte stands for itself up to 0x9f and is illegal from there on. |
| `C99.NameIsSpelled` | Resources/libiconv-1.11/lib/c99.h:105-121 | What is written: backslash, "u" below U+10000 and otherwise "U", and four or eight hexadecimal digits, in lower case, of the number. |
| `C99.CutNameIsTooFew` | Resources/libiconv-1.11/lib/c99.h:42-50 | Input cut inside an escape is reported as too short, never read as another character. |
| `C99.NameIsReadBack` | Resources/libiconv-1.11/lib/c99.h:96-125 | Every escape is read back as its character, with any bytes behind it, unless it is a surrogate. |
| `C99.DecodeStable` | Resources/libiconv-1.11/lib/c99.h:29-94 | Any answer but "too few" stands whatever bytes follow. |
| `C99.ReadDigits` | Resources/libiconv-1.11/lib/c99.h:45-60 | The digit loops. |
| `C99.Mbtowc` | Resources/libiconv-1.11/lib/c99.h:29-94 | `c99_mbtowc` with both loops and all returns. |
| `C99.WriteHex` | Resources/libiconv-1.11/lib/c99.h:117-120 | The digit loop through `r`; bytes beyond stay. |
| `C99.Wctomb` | Resources/libiconv-1.11/lib/c99.h:96-125 | `c99_wctomb`: bytes written, bytes left alone, or too little room. |
| `Big5Hkscs.RoundTrip` | Resources/libiconv-1.11/lib/big5hkscs1999.h:106-197 | Every text whose characters all have codes, encoded with the final reset, is decoded to itself, including E with circumflex followed or not by U+0304 or U+030C. |
| `Big5Hkscs.EncodedDecodes` | Resources/libiconv-1.11/lib/big5hkscs1999.h:106-181 | From any encoder state on: what is still written decodes to the character held back followed by the text. |
| `Big5Hkscs.SplittingDoesNotMatter` | Resources/libiconv-1.11/lib/big5hkscs1999.h:116-180 | The output is the same however the output buffer is split; bytes written so far and bytes still to come always make up the whole. |
| `Big5Hkscs.RoomDoesNotMatter` | Resources/libiconv-1.11/lib/big5hkscs1999.h:116-180 | A call that finds room writes what it would write with plenty, and never more than there is room for; four bytes always suffice. |
| `Big5Hkscs.DecodeStable` | Resources/libiconv-1.11/lib/big5hkscs1999.h:49-102 | Any answer of the decoder but "too few" stands when more bytes arrive. |
| `Big5Hkscs.ComposedCodes` | Resources/libiconv-1.11/lib/big5hkscs1999.h:83-98 | 88 62, 88 64, 88 A3 and 88 A5 are read as U+00CA or U+00EA followed by U+0304 or U+030C, whatever bytes follow. |
| `Big5Hkscs.ComposedWritten` | Resources/libiconv-1.11/lib/big5hkscs1999.h:112-123 | Step by step: the letter writes nothing and is held back, the accent then writes exactly that composed code. |
| `Big5Hkscs.PairsAreWritten` | Resources/libiconv-1.11/lib/big5hkscs1999.h:106-197 | As texts, the four pairs are written as these four codes. |
| `Big5Hkscs.RefusedBytes` | Resources/libiconv-1.11/lib/big5hkscs1999.h:59-101 | Decoding refuses exactly bytes that begin no code and codes that are in neither table, as far as it is used, and not composed; it asks for more exactly after a single lead byte. |
| `Big5Hkscs.TableCodes` | Resources/libiconv-1.11/lib/big5hkscs1999.h:63-82 | A code in the table that applies is read as the character there. |
| `Big5Hkscs.RefusedCharacters` | Resources/libiconv-1.11/lib/big5hkscs1999.h:134-180 | Encoding refuses exactly characters that have no code. |
| `Big5Hkscs.RoomNeeded` | Resources/libiconv-1.11/lib/big5hkscs1999.h:112-178 | A call is refused for lack of room exactly when there is less than the code held back, if it has to be written, and the new code need; otherwise it writes just these bytes. |
| `Big5Hkscs.DecodeCombined` | Resources/libiconv-1.11/lib/big5hkscs1999.h:83-99 | The composed code written for a held back character and an accent is decoded to both. |
| `Big5HkscsConverter.Converter.Mbtowc` | Resources/libiconv-1.11/lib/big5hkscs1999.h:49-102 | On the converter: result and `istate` are those of the specification. |
| `Big5HkscsConverter.Converter.Wctomb` | Resources/libiconv-1.11/lib/big5hkscs1999.h:106-181 | Result, bytes written through `r`, bytes left alone and `ostate`; an error leaves `ostate` as it was. |
| `Big5HkscsConverter.Converter.Reset` | Resources/libiconv-1.11/lib/big5hkscs1999.h:183-197 | Writes the code held back, leaving `ostate` to the caller. |
| `Big5HkscsConverter.Converter.Flush` | Resources/libiconv-1.11/lib/flushwc.h:24-35 | Gives out the pending character once. |
| `FrameBuffer.EveryInterleaving` | src/buffer.cpp:10-31 | Under any interleaving, spurious wakeups included: frames removed are a prefix of those added, the size never exceeds the capacity, at most one thread holds the mutex, and a sleeper who could go on implies some thread still between its change and `notify_all`. |
| `FrameBuffer.InitIsInvariant` | src/buffer.cpp:8-13 | The invariant holds of an empty buffer with no call under way. |
| `FrameBuffer.StepKeepsInvariant` | src/buffer.cpp:10-31 | The same for one step of one thread. |
| `FrameBuffer.NoDeadlock` | src/buffer.cpp:10-31 | When nobody is active, a sleeping adder means the buffer is full and a sleeping remover that it is empty; both kinds are never asleep together unless the capacity is 0. |
| `FrameBuffer.TestDecides` | src/buffer.cpp:13 | With the mutex, an adder goes on if and only if there are fewer frames than the capacity, a remover if and only if there is one; otherwise he sleeps and lets go of the mutex. |
| `FrameBuffer.WakeupIsOnItsWay` | src/buffer.cpp:13-16 | A sleeper for whom there is room, or a frame, is going to be notified. |
| `FrameBuffer.Effects` | src/buffer.cpp:14-16 | Only the change touches the queue: a frame goes to the end, or the one at the front is taken; notifying leaves nobody asleep; no other thread is moved. |
| `FrameBuffer.CallsGoOn` | src/buffer.cpp:10-31 | While a call is under way and not asleep, some thread can take a step. |
| `Jid.RoundTrip` | libextendxmpp/XMPPUtils.cc:48-112 | Parsing the printed parts gives them back if and only if the user has no '@' or '/', the domain no '/', and either the user is not empty or neither domain nor resource has an '@'. |
| `Jid.CutPlaces` | libextendxmpp/XMPPUtils.cc:64-95 | Where a text is cut, by its first at-sign and its first slash: nothing is left of one in which a slash comes before the first at-sign; otherwise the user ends at the first at-sign and the domain at the first slash. |
| `Jid.Reprint` | libextendxmpp/XMPPUtils.cc:48-112 | Printing a parsed text gives it back if and only if it is well formed and neither begins with '@' nor ends right after its first '/'. |
| `Jid.Normalised` | libextendxmpp/XMPPUtils.cc:48-112 | Parsing the printed form again changes nothing, except for texts that begin with '@' and hold another. |
| `Jid.JID.Decompose` | libextendxmpp/XMPPUtils.cc:48-100 | The cursor walk, replacing whatever was there. |
| `Jid.JID.FullString` | libextendxmpp/XMPPUtils.cc:107-112 | The printed form. |

## Left out

- Vision: background averaging, the frame side from image statistics, body temperature, sides of bodies, image display and saving; bodies and frame sides are inputs of the tracker, integer images inputs of the blobs.
- Non-square grids and the MLX sensor: `status` is allocated rows by columns but indexed the other way round, which fits square grids only.
- `find_direction`: nobody calls it.
- The reset of the count at midnight and by remote command: it is not part of a run, in which only the tracker writes the count.
- Trajectories are sequences in key order instead of `std::map`, and persons are values in the list: references to list elements that are held across `push_back` are taken to mean the persons they named.
- The counter starts with all frames empty and frame 1 as its first, as the program's one global counter does.
- BodyExtraction.ConvertContourToBody: area percentages are compared exactly instead of in floating point.
- FrameBuffer: threads step between states that are values; the frames themselves are not modelled, nor fairness of the scheduler.
- FtdiRead: libusb is a sequence of transfers, each an error or a block of bytes no longer than asked for; failures to allocate or submit, purge and reset, and packet sizes 1 and 2 are left out.
- FtdiRead.StreamCallback: a transfer with an error status, and the end of the stream when the callback asks for it.
- Baud: the overflow of `baudrate * 10` on high-speed chips above 214748364 and of `baudrate * 4` in bitbang mode.
- EEPROM of type 230X, whose checksum reads the device, and of size 0x40; reading and writing the device; setting and getting single fields; the printed report of the decoder.
- EepromContext.Context.Load: images whose string entries point beyond the 256 bytes, and a failing `malloc`.
- EepromContext.Context.PutChip: the source goes through the bits chip by chip, the model byte by byte.
- libiconv: the character tables themselves, aliases and the conversion loops; BIG5-HKSCS is modelled for tables as described above.
- XMPP sessions, publishing, serial and I2C sensors, and the main programs: plumbing around the parts above.
