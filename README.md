# TrapTracker in Dafny

TrapTracker is a Micro-Manager plugin that traps particles in a microfluidic
chip. It closes a valve, lets particles flow in, counts them on the camera
image, and when enough traps are filled it stops the flow, takes an
acquisition, and flushes the particles out again. This project models three
parts of the plugin in Dafny and proves properties of each:

- **The particle-counting pipeline** (`ImageAnalysis.getParticleCount`).
  - Decode the camera's bytes, big-endian, `depth` bytes per pixel.
  - Invert the image, so that dark particles become bright.
  - Box-blur it along the rows, writing the result transposed. Do this twice.
  - Threshold it to a 0/255 mask.
  - Fill the enclosed holes of the mask by a breadth-first flood from the border.
  - Count the 4-connected bright regions larger than `minSize` by a second breadth-first search.

  Every stage works in place on an `array<int>`, as the Java code does. Each
  stage is proved equal to a specification function of the input. Properties
  are then proved about those functions:
  - decoding is a round trip;
  - inversion is an involution;
  - thresholding yields a mask and is idempotent;
  - the blur stays within the row's range and keeps constant images;
  - hole filling characterises exactly which background pixels stay 0 (those with a background path to the border), and it is idempotent;
  - the count equals the number of regions, each counted once from its first pixel in row-major order, and it falls as `minSize` grows.
- **The parameter store** (`Settings`). This is a class with the plugin's
  fields and a `SetParameter` method. The method overwrites exactly the field
  a parameter selects. Three fields are `int` and keep `Double.intValue()` of
  the value, modelled with Java's truncation and saturation. Before the write,
  the method records the `java.beans` property-change event the listeners
  receive. No event is recorded when the old value equals the new one. A
  boxed `Integer` or an `AtomicInteger` never equals a `Double`, so changes to
  the three int fields are always announced. The listener list, and the
  messages logged for an unknown parameter, are fields as well.
- **The actuator state machine** (`DeviceControl`). It covers:
  - the idempotent `openTrap`, `closeTrap`, `startFlow` and `stopFlow`, branching on the kind of pump;
  - `setPosition`;
  - `stopAutomation`;
  - the do-while poll of `waitForParticles`;
  - the experiment loop of `runFullAnalysis`.

  Every call into the microscope is an entry appended to the trace of a
  `Core` object. The environment is fixed when the objects are built:
  - the trace positions whose call throws;
  - the particle counts of the successive camera images;
  - for each sleep, whether the user asks to stop during it.

  Each part of a cycle has a function that gives the trace it leaves:
  `AfterPrepare`, `AfterCollect`, `AfterAcquisition` and `AfterFlush`.
  `AfterCycle` composes them, and `AfterCycles` repeats the cycle. Each
  method's contract ties the new trace to its function of the old trace:
  - on success, the trace is exactly that function's value;
  - on an exception, the trace is a prefix of it. The parts with a fixed list
    of calls also state that the last call issued is the one that threw.
    `Poll` and `PollUntilFilled` state their two possible endings exactly.

  `SteadyCycle` writes out the calls of a cycle that starts with the trap
  open and the flow on, as every cycle after the first does. They are the
  twelve steps of the loop body, in the source's order.

Behaviour follows the code. There are two places where a reader might expect
otherwise:
- A stop requested while waiting for particles does not cut the cycle short.
  `waitForParticles` returns and the rest of the cycle still runs: stopping
  the flow, acquiring, opening the trap and restarting the flow.
  `RunCycle`'s contract states this: on success the trace is the whole
  cycle, `AfterCycle`, whether or not `running` was cleared. The loop only
  notices the stop at its next test. `RepeatCycles` states when that happens:
  it ends without an exception exactly after the first cycle during whose
  sleeps a stop was asked (`StoppedIn`).
- For the right edge of a row, `meanBlur` pads the window with the row's
  *first* sample, as it does for the left edge. The model does this too.

Other naming details follow the code as written:
- `stopFlow` logs the message "Cannot start flow" for an unknown device.
- `valveDisplacement` writes `valveOpenValue`, and `valveDisplacementRate`
  writes `valveClosedValue`.
- The events for these two carry the names `valveDisplacementValue` and
  `valveDisplacementRateValue`.

Module layout:
- `Grid`: index geometry, adjacency and paths of a flat `w*h` image.
- `PixelOps`: decoding, inversion and thresholding.
- `Blur`: the mean blur.
- `HoleFilling`: hole filling.
- `ParticleCounting`: particle counting.
- `ImageAnalysis`: the pipeline.
- `Settings`: the parameter store.
- `DeviceControl`: the actuator state machine.

## Model

All paths are under `src/main/java/org/micromanager/plugins/traptracker/`;
the table gives them in full.

| member | source | states |
|---|---|---|
| PixelOps.Unsigned | src/main/java/org/micromanager/plugins/traptracker/functions/ImageAnalysis.java:56 | `b & 0xff` is the byte's value modulo 256, in [0, 256) |
| PixelOps.Signed | src/main/java/org/micromanager/plugins/traptracker/functions/ImageAnalysis.java:56 | every value below 256 is the unsigned reading of some Java byte |
| PixelOps.BigEndianBound | src/main/java/org/micromanager/plugins/traptracker/functions/ImageAnalysis.java:53-57 | shifting in d bytes yields a value in [0, 256^d) |
| PixelOps.DecodeEncode | src/main/java/org/micromanager/plugins/traptracker/functions/ImageAnalysis.java:53-57 | decoding the d-byte big-endian encoding of any v < 256^d gives v back |
| PixelOps.EncodeDecode | src/main/java/org/micromanager/plugins/traptracker/functions/ImageAnalysis.java:53-57 | re-encoding a decoded byte group reproduces the bytes |
| PixelOps.ImageToPixels | src/main/java/org/micromanager/plugins/traptracker/functions/ImageAnalysis.java:50-60 | a new array of width*height pixels, pixel i being the big-endian value of bytes [depth*i, depth*i+depth) |
| PixelOps.PixelValueBound | src/main/java/org/micromanager/plugins/traptracker/functions/ImageAnalysis.java:50-59 | every decoded pixel lies in [0, 2^(8*depth) - 1] |
| PixelOps.Invert | src/main/java/org/micromanager/plugins/traptracker/functions/ImageAnalysis.java:89-93 | the array becomes its inversion 2^(8*depth) - 1 - v, element by element |
| PixelOps.InvertedInRange | src/main/java/org/micromanager/plugins/traptracker/functions/ImageAnalysis.java:89-93 | inversion keeps values in range, and inverting twice restores the image |
| PixelOps.Threshold | src/main/java/org/micromanager/plugins/traptracker/functions/ImageAnalysis.java:225-229 | the array becomes its thresholded image |
| PixelOps.ThresholdedAt | src/main/java/org/micromanager/plugins/traptracker/functions/ImageAnalysis.java:227 | a pixel becomes 255 exactly when it exceeds the threshold, 0 exactly when it does not |
| PixelOps.ThresholdedMask | src/main/java/org/micromanager/plugins/traptracker/functions/ImageAnalysis.java:225-229 | the result is a 0/255 mask, and thresholding again changes nothing when 0 <= threshold < 255 |
| Blur.WindowSumDropFirst | src/main/java/org/micromanager/plugins/traptracker/functions/ImageAnalysis.java:251-253 | sliding the window one step subtracts exactly its first (edge-padded) sample |
| Blur.DoneStep | src/main/java/org/micromanager/plugins/traptracker/functions/ImageAnalysis.java:250 | writing one window mean at the transposed index x*height+y keeps every earlier output and adds this one |
| Blur.DoneAll | src/main/java/org/micromanager/plugins/traptracker/functions/ImageAnalysis.java:242-256 | once every row is done, the temporary buffer is the blurred, transposed image |
| Blur.BlurRow | src/main/java/org/micromanager/plugins/traptracker/functions/ImageAnalysis.java:243-254 | one row's pass, with partialSum kept equal to the window sum, writes that row's means transposed into temp |
| Blur.MeanBlur | src/main/java/org/micromanager/plugins/traptracker/functions/ImageAnalysis.java:233-257 | with sigma <= 1 the array is unchanged; otherwise it becomes the transposed window means, the window padded with the row's first sample on both sides |
| Blur.JavaDivBounds | src/main/java/org/micromanager/plugins/traptracker/functions/ImageAnalysis.java:250 | Java's truncating division of a sum of n samples by n stays within the samples' bounds |
| Blur.WindowSumBounds | src/main/java/org/micromanager/plugins/traptracker/functions/ImageAnalysis.java:244-253 | a window sum lies between (length * row minimum) and (length * row maximum) |
| Blur.BlurAtBounds | src/main/java/org/micromanager/plugins/traptracker/functions/ImageAnalysis.java:241-256 | every output lies between the minimum and the maximum of its source row |
| Blur.BlurredConstant | src/main/java/org/micromanager/plugins/traptracker/functions/ImageAnalysis.java:241-256 | a constant image blurs to the same constant image |
| HoleFilling.Filled | src/main/java/org/micromanager/plugins/traptracker/functions/ImageAnalysis.java:95-165 | non-background pixels are kept, and every background pixel ends as 0 or 255 |
| HoleFilling.SeedColumns | src/main/java/org/micromanager/plugins/traptracker/functions/ImageAnalysis.java:106-118 | the left and right edge background pixels are reset to 0 and queued |
| HoleFilling.SeedRows | src/main/java/org/micromanager/plugins/traptracker/functions/ImageAnalysis.java:120-132 | the top and bottom edge background pixels are reset to 0 and queued |
| HoleFilling.Spread | src/main/java/org/micromanager/plugins/traptracker/functions/ImageAnalysis.java:136-156 | all four neighbour tests of one dequeued pixel: each marked background neighbour is reset to 0 and queued |
| HoleFilling.FloodComplete | src/main/java/org/micromanager/plugins/traptracker/functions/ImageAnalysis.java:135-164 | when the queue is empty and the border seeded, turning the pixels still marked 2 into 255 yields the filled image, pixel by pixel |
| HoleFilling.FillHoles | src/main/java/org/micromanager/plugins/traptracker/functions/ImageAnalysis.java:95-165 | the array becomes the filled image: background pixels 4-connected through background to the border become 0, other background pixels 255, everything else is kept |
| HoleFilling.FilledMask | src/main/java/org/micromanager/plugins/traptracker/functions/ImageAnalysis.java:95-165 | on a 0/255 mask: 255 pixels are kept, a 0 pixel stays 0 exactly when it is connected through 0 pixels to the border, and the output is a mask |
| HoleFilling.FilledIdempotent | src/main/java/org/micromanager/plugins/traptracker/functions/ImageAnalysis.java:95-165 | filling twice gives the same image as filling once |
| HoleFilling.EnclosedHoleFilled | src/main/java/org/micromanager/plugins/traptracker/functions/ImageAnalysis.java:159-164 | an interior background pixel with no background neighbour becomes 255 |
| HoleFilling.OpenHoleKept | src/main/java/org/micromanager/plugins/traptracker/functions/ImageAnalysis.java:134-157 | a background pixel next to a background border pixel stays 0 |
| HoleFilling.RingBecomesSolid | src/main/java/org/micromanager/plugins/traptracker/functions/ImageAnalysis.java:95-165 | a 3x3 ring with a hole in the centre fills solid |
| HoleFilling.NotchStaysOpen | src/main/java/org/micromanager/plugins/traptracker/functions/ImageAnalysis.java:95-165 | a hole opening onto the border is left open |
| HoleFilling.FilledBlank | src/main/java/org/micromanager/plugins/traptracker/functions/ImageAnalysis.java:95-165 | an all-background image stays all 0 |
| HoleFilling.FilledSolid | src/main/java/org/micromanager/plugins/traptracker/functions/ImageAnalysis.java:95-165 | an image without background is unchanged |
| ParticleCounting.ExamineNeighbours | src/main/java/org/micromanager/plugins/traptracker/functions/ImageAnalysis.java:183-210 | the four neighbour tests of one dequeued pixel keep the search invariant, queue unvisited foreground neighbours, and add at most 4 to the perimeter |
| ParticleCounting.MeasureParticle | src/main/java/org/micromanager/plugins/traptracker/functions/ImageAnalysis.java:176-211 | the search from pixel i marks exactly i's 4-connected foreground region with -1, and its area is that region's size |
| ParticleCounting.FirstUnvisited | src/main/java/org/micromanager/plugins/traptracker/functions/ImageAnalysis.java:170-177 | a foreground pixel the scan finds unvisited is the first pixel, in row-major order, of its region |
| ParticleCounting.VisitedStep | src/main/java/org/micromanager/plugins/traptracker/functions/ImageAnalysis.java:176-220 | measuring a new region advances the scan invariant and counts the region iff its area exceeds minSize |
| ParticleCounting.VisitedSkip | src/main/java/org/micromanager/plugins/traptracker/functions/ImageAnalysis.java:172-174 | skipping a background or visited pixel keeps the count and the scan invariant |
| ParticleCounting.CountParticle | src/main/java/org/micromanager/plugins/traptracker/functions/ImageAnalysis.java:176-220 | one outer iteration on an unvisited foreground pixel keeps the count equal to the regions counted so far |
| ParticleCounting.CountParticles | src/main/java/org/micromanager/plugins/traptracker/functions/ImageAnalysis.java:167-223 | returns the number of 4-connected foreground regions whose area is > minSize; afterwards every foreground pixel is -1 and the rest unchanged, so no pixel is positive |
| ParticleCounting.CountBelowIsStarts | src/main/java/org/micromanager/plugins/traptracker/functions/ImageAnalysis.java:170-221 | the count is the size of the set of counted region starts |
| ParticleCounting.ParticleCountMonotone | src/main/java/org/micromanager/plugins/traptracker/functions/ImageAnalysis.java:218-220 | the count never increases as minSize grows |
| ParticleCounting.FirstsDisjoint | src/main/java/org/micromanager/plugins/traptracker/functions/ImageAnalysis.java:176-211 | regions grown from two different starts share no pixel |
| ParticleCounting.OneStartPerPixel | src/main/java/org/micromanager/plugins/traptracker/functions/ImageAnalysis.java:170-211 | every foreground pixel lies in the region of exactly one start, so each particle is counted at most once |
| ParticleCounting.RegionOfClosed | src/main/java/org/micromanager/plugins/traptracker/functions/ImageAnalysis.java:180-211 | a neighbour-closed set of pixels connected to i is i's region |
| ParticleCounting.SeparatedDots | src/main/java/org/micromanager/plugins/traptracker/functions/ImageAnalysis.java:167-223 | two single pixels separated by background are two particles when minSize < 1, none otherwise |
| ParticleCounting.SolidBlock | src/main/java/org/micromanager/plugins/traptracker/functions/ImageAnalysis.java:167-223 | a solid 2x2 block is one particle when minSize < 4, none otherwise |
| ParticleCounting.SolidCount | src/main/java/org/micromanager/plugins/traptracker/functions/ImageAnalysis.java:167-223 | a solid non-empty image (the 3x3 block of 255 among them) counts 1 when minSize < w*h and 0 otherwise |
| ParticleCounting.BlankCount | src/main/java/org/micromanager/plugins/traptracker/functions/ImageAnalysis.java:167-223 | an image with no positive pixel counts 0 |
| ImageAnalysis.Blurred2D | src/main/java/org/micromanager/plugins/traptracker/functions/ImageAnalysis.java:75-78 | the two passes keep the image size, and both leave it unchanged when sigma <= 1 |
| ImageAnalysis.Pretreated | src/main/java/org/micromanager/plugins/traptracker/functions/ImageAnalysis.java:62-87 | the pretreated image is always a 0/255 mask of the image's size |
| ImageAnalysis.PretreatImage | src/main/java/org/micromanager/plugins/traptracker/functions/ImageAnalysis.java:62-87 | the array becomes invert, then blur along x, then blur along y, then threshold, then fill holes, applied to the input |
| ImageAnalysis.GetParticleCount | src/main/java/org/micromanager/plugins/traptracker/functions/ImageAnalysis.java:38-48 | the result is the particle count of the pretreated decoded image |
| ImageAnalysis.ParticlesInMonotone | src/main/java/org/micromanager/plugins/traptracker/functions/ImageAnalysis.java:38-48 | for any camera buffer, raising minSize never raises the reported count |
| ImageAnalysis.PretreatedUniform | src/main/java/org/micromanager/plugins/traptracker/functions/ImageAnalysis.java:62-87 | a uniform image pretreats to all 255 when its inverted value exceeds the threshold and to all 0 otherwise |
| ImageAnalysis.UniformCount | src/main/java/org/micromanager/plugins/traptracker/functions/ImageAnalysis.java:38-48 | a uniformly dark image is one particle (if larger than minSize), a uniformly bright one none |
| Settings.Truncate | src/main/java/org/micromanager/plugins/traptracker/Settings.java:91 | the result rounds toward zero: for x >= 0 it is the largest integer not above x, for x <= 0 the smallest integer not below x |
| Settings.IntValue | src/main/java/org/micromanager/plugins/traptracker/Settings.java:91 | `Double.intValue()` always gives a 32-bit int |
| Settings.IntValueSaturates | src/main/java/org/micromanager/plugins/traptracker/Settings.java:91 | values beyond the int range saturate at Integer.MAX_VALUE or Integer.MIN_VALUE |
| Settings.IntFieldsTruncate | src/main/java/org/micromanager/plugins/traptracker/Settings.java:89-108 | in range, nTraps, trapsFilled and minSize store the value truncated toward zero |
| Settings.AssignWritesOneField | src/main/java/org/micromanager/plugins/traptracker/Settings.java:71-112 | a known parameter writes its own field (as a double, or as intValue for the int fields) and leaves every other field unchanged |
| Settings.TargetBijective | src/main/java/org/micromanager/plugins/traptracker/Settings.java:72-112 | distinct parameters write distinct fields, and every parameter field is written by some parameter |
| Settings.ValveParameters | src/main/java/org/micromanager/plugins/traptracker/Settings.java:81-88 | valveDisplacement writes valveOpenValue only; valveDisplacementRate writes valveClosedValue only |
| Settings.TriggerReadBack | src/main/java/org/micromanager/plugins/traptracker/Settings.java:93-96 | after setting trigger to v, triggerValue reads v, and setting it again changes nothing |
| Settings.NoneIgnored | src/main/java/org/micromanager/plugins/traptracker/Settings.java:113-115 | None changes no field and fires no event |
| Settings.ChangeAnnounced | src/main/java/org/micromanager/plugins/traptracker/Settings.java:73-110 | a fired event names the parameter and carries the new value; int fields always fire; double fields fire exactly when the value changes, carrying the old one |
| Settings.RemoveFirst | src/main/java/org/micromanager/plugins/traptracker/Settings.java:67-69 | removing a listener takes out one occurrence when present and nothing otherwise |
| Settings.AddThenRemove | src/main/java/org/micromanager/plugins/traptracker/Settings.java:63-69 | adding a new listener and then removing it restores the list |
| Settings.Settings.constructor | src/main/java/org/micromanager/plugins/traptracker/Settings.java:28-61 | the field defaults (pixelSize 1, everything else 0 or empty, unknown device types), with no listener, event or message |
| Settings.Settings.AddPropertyChangeListener | src/main/java/org/micromanager/plugins/traptracker/Settings.java:63-65 | the listener is appended |
| Settings.Settings.RemovePropertyChangeListener | src/main/java/org/micromanager/plugins/traptracker/Settings.java:67-69 | the first occurrence of the listener is removed |
| Settings.Settings.Store | src/main/java/org/micromanager/plugins/traptracker/Settings.java:75-111 | the assignment of each case: the selected field is written and nothing else changes |
| Settings.Settings.SetParameter | src/main/java/org/micromanager/plugins/traptracker/Settings.java:71-117 | fields become the assignment, announced beforehand to the current listeners (who observe the old values) unless suppressed; None only logs its message |
| DeviceControl.Attempted | src/main/java/org/micromanager/plugins/traptracker/functions/DeviceControl.java:63-77 | the calls a try block issues are a prefix of its statements |
| DeviceControl.AttemptedStopsAtFault | src/main/java/org/micromanager/plugins/traptracker/functions/DeviceControl.java:63-77 | all calls are issued when none throws; otherwise the issued calls end exactly at the first that throws |
| DeviceControl.TrapCommandsMirror | src/main/java/org/micromanager/plugins/traptracker/functions/DeviceControl.java:64-92 | a pressure valve is set to the open or closed pressure; a volumetric valve gets flow rates -closed and +closed, then the same dispensed volume |
| DeviceControl.PollsShape | src/main/java/org/micromanager/plugins/traptracker/functions/DeviceControl.java:206-221 | poll m issues getLastImage and then a one-second sleep, at positions 2m and 2m+1 |
| DeviceControl.AfterPollsAppends | src/main/java/org/micromanager/plugins/traptracker/functions/DeviceControl.java:206-221 | polling n times appends exactly Polls(n) to the trace |
| DeviceControl.AfterPollsPrefix | src/main/java/org/micromanager/plugins/traptracker/functions/DeviceControl.java:206-221 | the trace after fewer polls is a prefix of the trace after more |
| DeviceControl.PollBrokeOff | src/main/java/org/micromanager/plugins/traptracker/functions/DeviceControl.java:206-221 | a trace that broke off within poll k+1 is a prefix of the trace of any n > k polls |
| DeviceControl.CycleExtends | src/main/java/org/micromanager/plugins/traptracker/functions/DeviceControl.java:305-333 | a whole cycle only appends to the trace it starts from |
| DeviceControl.AfterCyclesSnoc | src/main/java/org/micromanager/plugins/traptracker/functions/DeviceControl.java:305-333 | one more cycle extends the trace of the cycles before it; every cycle after the first starts with the trap open and the flow on |
| DeviceControl.StepsExtend | src/main/java/org/micromanager/plugins/traptracker/functions/DeviceControl.java:313-332 | within a part of the cycle each call only appends: openTrap before startFlow before the release, the polls before stopFlow |
| DeviceControl.CaptureExtends | src/main/java/org/micromanager/plugins/traptracker/functions/DeviceControl.java:307-320 | the first half of a cycle only appends to the trace, and its first part comes first |
| DeviceControl.ReleaseExtends | src/main/java/org/micromanager/plugins/traptracker/functions/DeviceControl.java:322-332 | the second half of a cycle only appends to the trace, and the acquisition comes first |
| DeviceControl.SteadyCycle | src/main/java/org/micromanager/plugins/traptracker/functions/DeviceControl.java:305-333 | a cycle from an open trap and running flow issues, in order: setXYPosition, setConfig(trap), the close commands, the three geometry reads, the polls, the stop commands, live off, runAcquisition, live on, sleep 1, the open commands, the start commands, setConfig(release), sleep 10 |
| DeviceControl.RunKeepsDrive | src/main/java/org/micromanager/plugins/traptracker/functions/DeviceControl.java:305-333 | a run leaves the pump values that the valve and flow calls send unchanged |
| DeviceControl.Core.IssueAll | src/main/java/org/micromanager/plugins/traptracker/functions/DeviceControl.java:63-77 | the statements of a try block issue their attempted calls, and succeed exactly when none of them throws |
| DeviceControl.Core.LastImage | src/main/java/org/micromanager/plugins/traptracker/functions/DeviceControl.java:208-216 | the next image's count, or an exception once the camera has no further image |
| DeviceControl.DeviceControl.constructor | src/main/java/org/micromanager/plugins/traptracker/functions/DeviceControl.java:44-56 | trap open, flow stopped, not running |
| DeviceControl.DeviceControl.OpenTrap | src/main/java/org/micromanager/plugins/traptracker/functions/DeviceControl.java:58-78 | a no-op unless closed; otherwise issues the valve kind's open commands and ends open, or on a throw stays closed and raises the wrapped exception; the trace is AfterOpen, cut at the call that threw; flow flag untouched |
| DeviceControl.DeviceControl.CloseTrap | src/main/java/org/micromanager/plugins/traptracker/functions/DeviceControl.java:80-100 | a no-op if closed; otherwise issues the close commands and ends closed, or on a throw stays open and raises the wrapped exception; the trace is AfterClose, cut at the call that threw; flow flag untouched |
| DeviceControl.DeviceControl.StartFlow | src/main/java/org/micromanager/plugins/traptracker/functions/DeviceControl.java:110-137 | a no-op if flowing; otherwise logs and sets the active level (pressure) or the rate then pumpStart (volumetric) and ends flowing, or on a throw stays stopped and raises the wrapped exception; the trace is AfterStart, cut at the call that threw |
| DeviceControl.DeviceControl.StopFlow | src/main/java/org/micromanager/plugins/traptracker/functions/DeviceControl.java:139-163 | a no-op unless flowing; otherwise sets the inactive level or calls volumetricPumpStop and ends stopped, or on a throw stays flowing and raises the wrapped exception; the trace is AfterStop, cut at the call that threw |
| DeviceControl.DeviceControl.SetPosition | src/main/java/org/micromanager/plugins/traptracker/functions/DeviceControl.java:165-171 | one stage move, its failure wrapped with the stage message |
| DeviceControl.DeviceControl.StopAutomation | src/main/java/org/micromanager/plugins/traptracker/functions/DeviceControl.java:188-193 | only while running: clears running and publishes isRunning = 0 through setParameter; otherwise nothing changes |
| DeviceControl.DeviceControl.Pause | src/main/java/org/micromanager/plugins/traptracker/functions/DeviceControl.java:219 | one sleep, which throws exactly when its trace position is a fault; a stop asked during it while running is stopAutomation (lines 188-193): running is cleared and isRunning = 0 is published through setParameter, with the event that call announces; otherwise the parameters and the events are unchanged |
| DeviceControl.DeviceControl.Poll | src/main/java/org/micromanager/plugins/traptracker/functions/DeviceControl.java:207-219 | one loop body: count the next image, store it in trapsFilled, sleep one second; on a throw the trace ends at getLastImage with the frame unchanged, or at the sleep with the frame advanced; the sleep count grows by the sleeps made and running stays on exactly when no stop is asked during the sleep |
| DeviceControl.WaitTrace | src/main/java/org/micromanager/plugins/traptracker/functions/DeviceControl.java:202-221 | after the three geometry calls, the polls that ended, or broke off at getLastImage, only extend the trace and stay within one more poll |
| DeviceControl.DeviceControl.PollUntilFilled | src/main/java/org/micromanager/plugins/traptracker/functions/DeviceControl.java:206-221 | polls at least once, storing each count, and stops exactly when the last count reaches the trigger or running is false; every earlier count was below the trigger with no stop asked; the trace is one getLastImage and sleep per poll, and on a throw it ends at the call that threw; on success it slept once per poll and running is false exactly when a stop was asked during the last sleep, or before it; running stays on exactly when no stop is asked during its sleeps |
| DeviceControl.DeviceControl.WaitForParticles | src/main/java/org/micromanager/plugins/traptracker/functions/DeviceControl.java:202-222 | reads the image geometry, then polls as above; the trace is the three reads followed by the polls, and on a throw a prefix of it; on success it slept once per poll and running is false exactly when a stop was asked during the last sleep, or before it; running stays on exactly when no stop is asked during its sleeps |
| DeviceControl.DeviceControl.Prepare | src/main/java/org/micromanager/plugins/traptracker/functions/DeviceControl.java:307-314 | setPosition(overview), setConfig(trap), closeTrap, startFlow: the trace is AfterPrepare and the trap ends closed with the flow on; on a throw the trace is cut at the call that threw |
| DeviceControl.DeviceControl.Collect | src/main/java/org/micromanager/plugins/traptracker/functions/DeviceControl.java:316-320 | waitForParticles, then stopFlow: the trace is AfterCollect, the flow ends stopped and at least one image was read; on a throw the trace is a prefix of it; on success it slept once per poll; running stays on exactly when no stop is asked during its sleeps |
| DeviceControl.DeviceControl.Acquisition | src/main/java/org/micromanager/plugins/traptracker/functions/DeviceControl.java:322-326 | live mode off, run the acquisition, live mode on, one second's sleep: the trace is AfterAcquisition, cut at the call that threw; on success it slept once; running stays on exactly when no stop is asked during its sleeps |
| DeviceControl.DeviceControl.Flush | src/main/java/org/micromanager/plugins/traptracker/functions/DeviceControl.java:328-332 | openTrap, startFlow, setConfig(release), ten seconds' sleep: the trace is AfterFlush and the trap ends open with the flow on; on a throw the trace is cut at the call that threw; on success it slept once; running stays on exactly when no stop is asked during its sleeps |
| DeviceControl.DeviceControl.Capture | src/main/java/org/micromanager/plugins/traptracker/functions/DeviceControl.java:307-320 | the first half of the cycle: the trace is AfterCapture, and the trap ends closed with the flow stopped; on a throw the trace is a prefix of it; on success it slept once per poll; running stays on exactly when no stop is asked during its sleeps |
| DeviceControl.DeviceControl.Release | src/main/java/org/micromanager/plugins/traptracker/functions/DeviceControl.java:322-332 | the second half of the cycle: the trace is AfterRelease, and the trap ends open with the flow on; on a throw the trace is cut at the call that threw; on success it slept twice; running stays on exactly when no stop is asked during its sleeps |
| DeviceControl.DeviceControl.RunCycle | src/main/java/org/micromanager/plugins/traptracker/functions/DeviceControl.java:305-333 | one iteration: on success the trace is AfterCycle of the trace before, even if a stop arrived while waiting, and the trap ends open with the flow on; on a throw the trace is a prefix of AfterCycle; on success it slept once per poll and twice more; running stays on exactly when no stop is asked during its sleeps |
| DeviceControl.DeviceControl.CycleDone | src/main/java/org/micromanager/plugins/traptracker/functions/DeviceControl.java:305 | a whole cycle begun while running keeps the loop going exactly when no stop is asked during its sleeps, and adds its sleeps to those of the cycles before |
| DeviceControl.DeviceControl.CycleBroke | src/main/java/org/micromanager/plugins/traptracker/functions/DeviceControl.java:305 | a cycle that throws was begun while running, with no stop asked since the loop was entered |
| DeviceControl.DeviceControl.CyclesStopped | src/main/java/org/micromanager/plugins/traptracker/functions/DeviceControl.java:305 | when the loop's test finds running false after whole cycles, at least one ran and the stop was asked during the last |
| DeviceControl.DeviceControl.StoppedInRequested | src/main/java/org/micromanager/plugins/traptracker/functions/DeviceControl.java:188-193 | a loop that ended stopped saw a stop requested during its last cycle, so with no stop requested it never ends stopped |
| DeviceControl.DeviceControl.RepeatCycles | src/main/java/org/micromanager/plugins/traptracker/functions/DeviceControl.java:305-333 | the while loop, entered running: the trace starts with whole cycles, one per entry of polls; when no cycle threw it is exactly those cycles, running is false and isRunning = 0; when one threw, the rest of the trace is a prefix of that cycle, the one that polled broken times; every cycle, the one that threw included, began with no stop asked since the loop was entered, and ending without a throw means at least one cycle ran and a stop was asked during the last one (StoppedIn) |
| DeviceControl.DeviceControl.Recover | src/main/java/org/micromanager/plugins/traptracker/functions/DeviceControl.java:334-339 | the catch block: logs the failure and the exception, then clears running and sets isRunning to 0 directly; if a log call throws, the exception leaves the thread with running unchanged; no other setting changes |
| DeviceControl.DeviceControl.Experiment | src/main/java/org/micromanager/plugins/traptracker/functions/DeviceControl.java:301-333 | the try block, entered running: setAcquisitionSettings, then the loop; the trace is that call followed by whole cycles, exactly on a stop and followed by a prefix of the cycle that threw on an exception; a stop ends it only when asked during its last cycle, and every cycle began with no stop asked |
| DeviceControl.DeviceControl.RunFullAnalysis | src/main/java/org/micromanager/plugins/traptracker/functions/DeviceControl.java:299-340 | sets the acquisition settings, then runs whole cycles, each begun with no stop asked before it, until a stop is asked during one of them (StoppedIn: at least one cycle ran, and the stop fell within the last); a stop gives exactly the trace of those cycles and isRunning = 0; on an exception the trace at that point (cut) is the whole cycles followed by a prefix of the cycle that threw, and the catch block logs it (the trace is cut plus the two log calls, or a prefix of them when a log call throws), clears running and sets isRunning to 0 directly, announcing no event; the events are those at the exception or the stop, and only stops are ever announced |

## Left out

- Saving images (`saveImg`, `checkFileSystem`, the home directory and file chooser) and the console message in `meanBlur` are output only; they are not modelled.
- PixelOps.ImageToPixels: requires `depth * (width * height) <= img.Length`. With a shorter buffer the source reads past its end and throws an ArrayIndexOutOfBoundsException, which is not modelled.
- PixelOps.ImageToPixels: `depth` is limited to 0..3. With 4 bytes, `1 << 32` wraps to 1 in Java and the sums overflow 32 bits, which the model does not reproduce.
- Blur.MeanBlur: requires `sigma < width` when it blurs. With a wider window the source reads into the next row, and on the last row it throws an index exception; those inputs are not modelled.
- HoleFilling.FillHoles: requires the width and the height to be both zero or both positive. With only one of them zero, the source indexes out of bounds and throws.
- ImageAnalysis.PretreatImage: inherits both restrictions above through `BlurFits`. The pipeline's own call uses sigma 3 on camera-sized images.
- The circularity test of `countParticles` is commented out in the source. The perimeter is computed and bounded, but it never affects the count.
- Integer overflow in the blur's `partialSum` and in `area` is not modelled. Pixel values for depths up to 3 keep the sums far below 2^31 for camera-sized images.
- Threads and concurrency are not modelled: `startAutomation` spawning the thread, `run`, and the atomics' thread safety. The atomics are plain fields of a single-threaded model.
- `startAutomation`'s live-mode check and sleep are not modelled.
- A stop request reaches the loop only during a sleep. Each sleep has its own entry in the `stops` input. A stop arriving at any other moment does not change the outcome, except for when it is first seen.
- `TimeUnit.SECONDS.sleep` is a `Sleep` entry in the trace; no time passes.
- The camera and the Micro-Manager API are not modelled. `getImageWidth/Height/BitDepth`, the stage, configuration groups, the acquisition, live mode, pumps and logging are trace commands with no effect other than possibly throwing. `getLastImage` followed by `getParticleCount` is the next count of the camera input. Asking when no count is left throws.
- A sleep throws when its trace position is a fault. This stands in for the InterruptedException `TimeUnit.SECONDS.sleep` may throw, which the plugin never triggers; interruption itself is not modelled.
- DeviceControl.DeviceControl.PollUntilFilled: the camera input is finite, and asking past its end throws. So a waitForParticles that never ends, with counts staying below the trigger and no stop, cannot be expressed. The loop's termination rests on that.
- DeviceControl.DeviceControl.Pause: the `setParameter` calls made by `stopAutomation` during a sleep never throw. In the source they only fire events and log.
- Settings.Settings.SetParameter: takes the value as a real, that is, a `Double`. Passing any other object makes the source's casts throw a ClassCastException, and that is not modelled.
- What listeners do when they receive an event is not modelled; the record of each delivery stands for its effect. The listeners are Graph and the settings panel, which are UI code.
- `debugImageAnalysis`, `trackTrapFilling` and `previewAnalysis` are debug code and are not modelled.
- SettingsPanel.java, MainFrame.java and Graph.java are Swing and charting code and are not part of this model.
- Doubles are modelled as reals. They are only stored, compared and passed through, except for the exact rounding of `Double.intValue()`, which is modelled.
- `DeviceControl.DeviceControl.IsClosed` and `DeviceControl.DeviceControl.IsFlowing` are plain accessors. The contracts of the trap and flow methods state the flags directly.
