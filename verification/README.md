# A verified model of AniWebScale's frame paths

AniWebScale upscales anime video in the browser. Frames go through WebGPU or D3D kernels generated
from the Anime4K shaders, through a RealESRGAN pipeline with several frames in flight, or over loopback
to a native Vulkan host that cuts large frames into tiles. This project models those paths in Dafny and
proves what their code and comments promise of them. `dafny verify dfyconfig.toml` checks everything.

The modules follow the program's parts. Most come in pairs: one with the operations in the source's own
form (classes, loops, buffers) against a specification, one with the laws of that specification.

- **Tiled frames**: `Frames`, `BoxDownscale`, `BoxLaws`, `TileNetwork`, `FramePlan`, `TiledComposer`. The
  network is any kernel that looks at most `radius` pixels away and sees the frame's edge; the composer is
  exact for every radius up to the halo of 33, and not for 34.
- **Shader compilers**: `Numerals`, `DimensionAnalysis`, `ExpressionLaws`, `SamplingPlanLaws`,
  `ExactDimensions`, `DimensionSoundness`, `SplicedPasses`, `MisleadingSplices` (symbolic texture sizes, what
  is planned from them, in exact arithmetic, under the renderer's rounding, and exactly when that rounding
  matters), `SamplingRewrite`, `RewriteSoundness` (sampling replaced by integer loads) and `TiledKernel`
  (direct 3x3 reads replaced by a shared-memory tile).
- **Streams**: `ConnBuf`, `HttpServe`, `HttpLaws`, `HttpTexts` (the keep-alive server, up to requests written
  out character by character), `Base64`, `Framing`.
- **Frame pipeline**: `StagingSlots`, `FrameJobs`, `FramePipeline` (one step is the code one callback runs
  between two awaits, and any event may come next), `FramePipelineLaws`, `AdmissionLaws` and `StillFrameLaws`, over
  all runs.
- **Sessions and requests**: `FallbackLedger`, `FallbackRuns`; `NativeClient`, `NativeClientRuns`.
- **GPU-side bookkeeping**: `Compose`, `ComposeLaws`; `OutputWriter`, `LetterboxLaws`; `Srvgg`, `SrvggLaws`,
  `SrvggManifest`; `Governor`, `UpscaleCore`.

`Arith`, `RealSums` and `Wrappers` hold shared arithmetic, finite sums and the option type.

## What the proofs turned up

Where a promise does not hold as written, the model keeps the code, shows the case and proves when it does hold.

- The tiled path averages bytes, not raw network values: the post-processing shader rounds every tap before
  averaging (`realesrgan_spike_postproc_body.comp` 90-128), so tile and CPU downscale agree on bytes. The
  halo constants are 642 and 33; comments elsewhere still speak of 640 and 32.
- The dimension analysis compares exact expressions while the renderer rounds each pass's size. In exact
  arithmetic it is right for every list whose constants keep their exponents (`AnalysisExact`). With rounding
  it stays right while no size an expression can read is rounded (`AnalysisSound`), which all shipped models
  guarantee, and only then (`RoundsNothingIff`); a three-pass list shows it failing for odd widths
  (`RoundingDecidesTheClaim`). Stripping the zeros of an exponent can be seen only beyond the texture size
  limit (`ExponentDecidesTheClaim`).
- The workgroup size is not always the largest that fits (`ChoiceIsLargestIff`).
- A head that never ends, by a stream that stops in a header line or by a line of 64 KiB, is not refused: its
  bytes are served as the body whenever there are enough of them (`UnfinishedHeadServedIff`). The 413 answer
  can never be sent.
- The still-frame gate counts a content as presented once it was observed twice, shown or not. A new still
  image stays on the canvas exactly if one of its first two frames was painted (`StillImageShownIff`); a failed
  inference, a failed write and a skipped crop count alike. With several frames in flight, `HoldFindsPictureIff`
  says exactly when a hold finds its picture, and two runs show that neither of its provisos can go.
- Rotating upload buffers are safe if requests settle in claim order; without that order one slow request
  is overwritten (`OrderlyNeverAliases`, `SlowRequestIsOverwritten`, and `AliasIff` for exactly when).
- GPU composition repaints the frame without forgetting remembered bars (`GpuComposeLeavesItsPixels`).
- Two early returns of `run_gpu_frame` leave the weight latch set over a clone that never ran
  (`ArmedIff`, `DroppedCloneIsUsed`).
- The SRVGG manifest check lets negative slope offsets through (`SlopesSafeIff`).

## Model

| member | source | states |
|---|---|---|
| `TiledComposer.Composer.Compose` | native/linux-host/tiled-composer.cpp:44-193 | For every frame, target and network of radius at most 33: it succeeds exactly if every tile does, and then returns one picture, whichever branch ran: the whole-frame network output, or its box downscale to the target. |
| `TiledComposer.ComposedIs` | native/linux-host/tiled-composer.cpp:144-153 | That picture in numbers: four times the frame's size without a target or with one that is no smaller either way, else the target, no side enlarged, each channel the rounded mean of its window. |
| `TiledComposer.Composer.ComposeFull` | native/linux-host/tiled-composer.cpp:104-142 | The copied cores of the halo-expanded tiles are the network's output on the whole frame, every pixel of the reused buffer included. |
| `TiledComposer.Composer.StitchFullTile` | native/linux-host/tiled-composer.cpp:115-140 | One tile: exactly its core's pixels change, to the whole-frame output there. |
| `TiledComposer.Composer.ComposeSmall` | native/linux-host/tiled-composer.cpp:49-97 | With an aligned factor, the tiles downscaled one by one and stitched are the box downscale of the whole 4x composition. |
| `TiledComposer.Composer.StitchSmallTile` | native/linux-host/tiled-composer.cpp:62-92 | One downscaled tile: exactly its slot in the target changes, to the whole frame's downscale there. |
| `TiledComposer.Composer.LoadTile` | native/linux-host/tiled-composer.cpp:62-70 | The tile buffer starts with the halo-expanded crop of the frame, whatever it held before. |
| `TiledComposer.CopyRect` | native/linux-host/tiled-composer.cpp:66-70 | Row by row, a rectangle is copied between two strides and nothing else moves. |
| `TiledComposer.CorePixel` | native/linux-host/tiled-composer.cpp:109-139 | On a core pixel the tile's network output is the whole frame's: the halo shows the network all it looks at, and the frame's own edge where there is one. |
| `TiledComposer.CoreOwner` | native/linux-host/tiled-composer.cpp:107-114 | Each coordinate lies in exactly one core: no gap, no overlap. |
| `TiledComposer.HaloIsTight` | native/linux-host/tiled-composer.cpp:25 | A radius of 34 would already be too much: some network then tells a tile edge from a frame edge. |
| `TiledComposer.DownscaledCorePixel` | native/linux-host/tiled-composer.cpp:84-92 | Box windows do not drift: a core pixel of a downscaled tile is the same pixel of the downscaled whole. |
| `TiledComposer.GridExact` | native/linux-host/tiled-composer.cpp:71-86 | All divided offsets and sizes are exact quotients when the alignment holds. |
| `TiledComposer.RowSplit` | native/linux-host/tiled-composer.cpp:162-175 | The thread split gives every output row to exactly one worker. |
| `TiledComposer.FanOut` | native/linux-host/tiled-composer.cpp:158-187 | Any interleaving of the workers' rows, any number of threads, and a failed spawn with its recompute leave the box downscale. |
| `TileNetwork.SameOutput` | native/linux-host/tiled-composer.cpp:26-33 | Locality: equal neighbourhoods, frame edge included, give equal network output. |
| `TileNetwork.SameBoxPixel` | native/linux-host/shaders/realesrgan_spike_postproc_body.comp:84-110 | Two frames that agree on a pixel's f x f block have the same box pixel there. |
| `FramePlan.PlanTileDownscaleFactor` | native/linux-host/frame-plan.h:40-63 | The factor returned is one under which every tile of both axes lies on the global grid, and 0 is returned only if there is none. |
| `FramePlan.CheckAxis` | native/linux-host/frame-plan.h:50-55 | The loop with its early return accepts exactly the axes all of whose tiles are aligned. |
| `FramePlan.AlignedFrameBytes` | native/linux-host/frame-plan.h:23-25 | The next multiple of 16, and less than 16 above. |
| `BoxDownscale.BoxDownscaleRows` | native/linux-host/box-downscale.h:24-56 | Rows [begin, end) become the exact fractional box average: each of red, green and blue is the mean of that channel of the source over the output pixel's window, rounded to the nearest byte, halves up (over an output pixel of less than a millionth of a source pixel at most that); opaque; all other rows stay. |
| `BoxDownscale.Accumulate` | native/linux-host/box-downscale.h:35-47 | The accumulators end as the overlap-weighted window sums over the whole frame, and the weight sum as the window's area: the clipped and skipped cells contribute nothing. |
| `BoxDownscale.AccumulateRow` | native/linux-host/box-downscale.h:39-46 | One source row adds its weighted cells and nothing else. |
| `BoxLaws.MassConserved` | native/linux-host/box-downscale.h:27-47 | The unrounded output sums conserve the total mass of each channel, for every source and destination size. |
| `BoxLaws.Conserve` | native/linux-host/box-downscale.h:36-47 | Along one axis each source cell's shares over all outputs add up to the cell. |
| `BoxLaws.AreaIs` | native/linux-host/box-downscale.h:28-45 | The weights of each output pixel sum to (src_w / dst_w)(src_h / dst_h). |
| `BoxLaws.BoxValueBetween` | native/linux-host/box-downscale.h:48-52 | An unrounded output lies between any bounds its window's pixels keep. |
| `BoxLaws.BoxValueIsMeanIff` | native/linux-host/box-downscale.h:48 | The 1e-6 floor under the divisor leaves the true mean alone exactly if an output pixel covers at least a millionth of a source pixel or the window is black. |
| `BoxLaws.IntegerFactorIsPlainMean` | native/linux-host/box-downscale.h:35-52 | An integer factor reduces to the plain mean of the f x f block. |
| `BoxLaws.OneColourIsKept` | native/linux-host/box-downscale.h:24-56 | A frame of one colour becomes that colour, channel for channel, opaque, for every size pair the floor under the divisor leaves alone. |
| `Frames.ShowsDetermines` | native/linux-host/tiled-composer.cpp:99-106 | A picture fixes the buffer that shows it: no byte is left over from an earlier frame. |
| `DimensionAnalysis.ResourceSlotMap` | native/tools/generate_anime4k_models.py:290-313 | Every helper gets the register of its binding or alias; the pass is refused exactly if one has none. |
| `DimensionAnalysis.EvaluateDimension` | native/tools/generate_anime4k_models.py:319-359 | The stack machine computes the canonical symbolic size, or fails where the source raises. |
| `DimensionAnalysis.SelectLoads` | native/tools/generate_anime4k_models.py:395-414 | A name is marked for integer loads exactly if its bound resource has the output's symbolic size. |
| `DimensionAnalysis.BuildSamplingPlans` | native/tools/generate_anime4k_models.py:362-422 | The loop over a model's passes, SAVE rebinding included, yields exactly the specified plans and fails exactly where they do not exist. |
| `SamplingPlanLaws.AcceptedIff` | native/tools/generate_anime4k_models.py:362-394 | A pass list is accepted exactly if in every pass each helper stands for a binding, each binding is MAIN, HOOKED, LUMA or saved by an earlier pass, and both size expressions have a normal form. |
| `SamplingPlanLaws.BareSizesAreLoaded` | native/tools/generate_anime4k_models.py:395-417 | In every accepted list a pass of a resource's own width and height gets an integer load for each current-texel and each fixed-offset lookup of that resource, whatever name it goes by. |
| `SamplingPlanLaws.EqualExpressionsAreLoaded` | native/tools/generate_anime4k_models.py:395-417 | So does a pass for what an earlier pass saved under the same expressions, while neither the saved name nor the names in them are saved again. |
| `SamplingPlanLaws.TwinsAreLoaded` | native/tools/generate_anime4k_models.py:395-417 | And a pass of the size of one resource for another saved under equal expressions over the same sizes. |
| `SamplingPlanLaws.PlansStayInside` | native/tools/generate_anime4k_models.py:395-417 | No plan names a lookup the pass does not make. |
| `SamplingPlanLaws.AliasesAre` | native/tools/generate_anime4k_models.py:290-313 | A helper name stands for the binding of that name, else MAIN for HOOKED in a hook on MAIN, else HOOKED for the hooked resource. |
| `ExpressionLaws.NormalFormOf` | native/tools/generate_anime4k_models.py:319-359 | The generator's size of any expression tree in postfix: the tree with its numbers in normal form and its names replaced by their sizes along the one axis, factors and divisors of 1 dropped. |
| `ExpressionLaws.NormalText` | native/tools/generate_anime4k_models.py:344 | The normal form as text: behind a point trailing zeros go, and the point with them if nothing is left; behind an exponent they go from the exponent. |
| `ExpressionLaws.EvaluatesIff` | native/src/renderer/anime4k_pipeline.cpp:44-89 | The renderer's stack machine gives a token list a value exactly if the list is some expression tree in postfix and that tree has the value: left times, divided by or compared with right, a division by zero having none. |
| `ExpressionLaws.TokenIsWorth` | native/src/renderer/anime4k_pipeline.cpp:36-42 | A number token is worth its digits as one whole number, moved by the places behind the point and by its exponent, with its sign. |
| `ExpressionLaws.OutputSizeIff` | native/src/renderer/anime4k_pipeline.cpp:261-275 | A pass has the output size w x h exactly if these are the nearest whole numbers to its two values, halves up, and lie between 1 and 16384. |
| `ExpressionLaws.FirstPassRunsIff` | native/src/renderer/anime4k_pipeline.cpp:257-300 | A list runs exactly if its first pass has such a size and between 1 and 128 bindings, all in reach, and the rest runs on what is kept. |
| `ExpressionLaws.UnboundSizeIsGone` | native/src/renderer/anime4k_pipeline.cpp:333-351 | A size that no later pass binds cannot be named any more, even by the pass behind the one that saved it. |
| `ExpressionLaws.BoundSizeIsThere` | native/src/renderer/anime4k_pipeline.cpp:333-351 | A size that the next pass binds is in reach: the output just saved under its name, every other as it was. |
| `DimensionSoundness.EvalAgrees` | native/src/renderer/anime4k_pipeline.cpp:44-89 | The renderer's real value of an expression is one its symbolic normal form stands for. |
| `DimensionSoundness.RealisationsRelated` | native/tools/generate_anime4k_models.py:344 | Two values of one normal form are both zero or differ by a power of 10^9, which is all that the exponent stripping can do. |
| `ExactDimensions.AnalysisExact` | native/tools/generate_anime4k_models.py:362-422 | In exact arithmetic, for every source and target size and every pass list whose constants keep their exponents, each resource marked in any pass has exactly the output's size. |
| `ExactDimensions.EvalDenotes` | native/tools/generate_anime4k_models.py:319-359 | In such a list the exact value of an expression is what its normal form denotes. |
| `ExactDimensions.ExponentDecidesTheClaim` | native/tools/generate_anime4k_models.py:344 | The proviso on exponents is needed: a two-pass list whose claim is false for every source, because "1.5e10" and "1.5e1" have one normal form. |
| `DimensionSoundness.AnalysisSound` | native/tools/generate_anime4k_models.py:362-422 | With the renderer's rounding: while it changes no size an expression can read, each resource marked in any pass has exactly the output's dimensions, for every source and target size and every constant token, exponents included. |
| `MisleadingSplices.RoundsNothingIff` | native/src/renderer/anime4k_pipeline.cpp:261-270 | And exactly then: rounding changes no readable size of a list if and only if no two passes, whatever they are, can be spliced around one of its own so that the second is misled about the size of the first. |
| `SplicedPasses.Honest` | native/tools/generate_anime4k_models.py:362-422 | Where nothing is rounded, any pass spliced in behind one of the list's own gets the size the generator promised it for the one spliced in before. |
| `MisleadingSplices.RoundingMisleads` | native/src/renderer/anime4k_pipeline.cpp:269-270 | Around any pass whose size is rounded, two passes scaled by a fraction that tells the value from its rounding make the generator's claim false, with the rest of the list still planned and running. |
| `MisleadingSplices.Telling` | native/src/renderer/anime4k_pipeline.cpp:269-270 | Every value that is not whole is told from its rounding by some fraction, one side scaled to 1 and the other to 2 or 3. |
| `MisleadingSplices.ContinuationsRoundThemselves` | native/src/renderer/anime4k_pipeline.cpp:269-270 | Continuing a list proves nothing about it: three passes after the empty list already mislead their last. |
| `DimensionSoundness.WholePassesSound` | native/tools/generate_anime4k_models.py:362-422 | Expressions of sizes, products and whole constants, as in all shipped models, meet that condition on every run. |
| `DimensionSoundness.RoundingDecidesTheClaim` | native/src/renderer/anime4k_pipeline.cpp:269-270 | A concrete pass list on which the analysis claims equal sizes and the renderer's rounding decides: true of even source widths, false of every odd one. |
| `Numerals.CanonExactIff` | native/tools/generate_anime4k_models.py:344 | The normal form of a number token denotes the same number exactly if no significant exponent digit is stripped ("1.5e10" becomes "1.5e1"). |
| `Numerals.SameCanonRelated` | native/tools/generate_anime4k_models.py:344 | Tokens the generator cannot tell apart denote numbers a power of 10^9 apart. |
| `Numerals.RelatedInRange` | native/src/renderer/anime4k_pipeline.cpp:271-272 | Inside the texture size limit two such numbers are equal. |
| `SamplingRewrite.LoadIsSample` | native/tools/generate_anime4k_models.py:534-600 | With equal sizes and integer offsets, clamped bilinear sampling is the clamped integer load, for every texture, pixel and offset. |
| `SamplingRewrite.RewriteExactIff` | native/tools/generate_anime4k_models.py:534-600 | The two lookups agree on all textures, pixels and offsets exactly if each axis has the pass's size or a single texel. |
| `SamplingRewrite.LoadIsNearest` | native/tools/generate_anime4k_models.py:534-600 | The clamped load takes, per axis, the texel inside the texture that is nearest to the one asked for. |
| `SamplingRewrite.SampleIsNearest` | native/tools/generate_anime4k_models.py:534-600 | And the clamped sample the coordinate inside the texture nearest to the one asked for. |
| `RewriteSoundness.PlannedLoadsKeepMeaning` | native/tools/generate_anime4k_models.py:362-422 | Analysis and rewrite together: on every run of such a pass list each planned load fetches what sampling would have. |
| `TiledKernel.ChoiceIsLargestOffered` | scripts/generate-anime4k-webgpu-models.py:66-76 | The chosen workgroup is the largest of 16, 12 and 8 whose tiles fit 16384 bytes; the error is raised exactly if none fits. |
| `TiledKernel.ChoiceIsLargestIff` | scripts/generate-anime4k-webgpu-models.py:66-69 | It is the largest of all sizes up to 16, as the comment has it, for up to 3, 5, 9 or 10 inputs only. |
| `TiledKernel.TwoLoadsSuffice` | scripts/generate-anime4k-webgpu-models.py:170-175 | Two stores per thread are enough for a tile exactly from workgroups of five on. |
| `TiledKernel.EntryIsReached` | scripts/generate-anime4k-webgpu-models.py:161-175 | Every tile entry is some thread's first or second store. |
| `TiledKernel.OriginIsShared` | scripts/generate-anime4k-webgpu-models.py:157-160 | All invocations of a workgroup compute the same halo origin. |
| `TiledKernel.FillTiles` | scripts/generate-anime4k-webgpu-models.py:166-176 | The stores of all threads and inputs, in any order, leave the clamped halo block of every input in its tile. |
| `TiledKernel.TapExactIff` | scripts/generate-anime4k-webgpu-models.py:140-146 | A tap finds its own texel from every thread exactly if its offset lies in the 3x3 window, which the generator does not test. |
| `TiledKernel.TiledIsDirect` | scripts/generate-anime4k-webgpu-models.py:135-146 | Any pass body over 3x3 taps evaluates to the direct kernel's value, with no law of arithmetic used: bit equality, at edges and for inputs of other sizes too. |
| `TiledKernel.DirectEvaluates` | scripts/generate-anime4k-webgpu-models.py:296-304 | The direct kernel's value is the expression with each tap the texel inside the image that is nearest on both axes to the pixel moved by the tap's offset: edges repeat. |
| `TiledKernel.RunGroup` | scripts/generate-anime4k-webgpu-models.py:148-181 | A workgroup writes the direct kernel's values to its pixels inside the output and leaves all others. |
| `TiledKernel.RunTiled` | scripts/generate-anime4k-webgpu-models.py:128-181 | A grid that covers the output computes the direct kernel's image; every pixel is the expression over nearest texels. |
| `TiledKernel.RunDirect` | scripts/generate-anime4k-webgpu-models.py:280-323 | The direct kernel's 8x8 workgroup grid, with its bounds check, covers the output: every pixel is stored, as the expression over nearest texels, and nothing beyond the edge. |
| `TiledKernel.KernelsAgree` | scripts/generate-anime4k-webgpu-models.py:84-87 | Run on the same pass and inputs, with any schedule of the tile stores, the tiled and the direct kernel leave the same image, pixel for pixel. |
| `ConnBuf.ConnBuf.Fill` | native/linux-host/http-transport.cpp:49-86 | Unread bytes survive compaction and whatever recv returns; nothing is lost, repeated or reordered. |
| `ConnBuf.ConnBuf.ReadLine` | native/linux-host/http-transport.cpp:89-103 | The unbuffered reader's next line and the rest after it, however the bytes came; it fails exactly if no terminator is among the first 64 KiB. |
| `ConnBuf.ConnBuf.ReadExact` | native/linux-host/http-transport.cpp:105-118 | Exactly the next n bytes, across any number of fills. |
| `ConnBuf.ConnBuf.Consume` | native/linux-host/http-transport.cpp:111-116 | The next bytes leave the front of the stream and only they. |
| `ConnBuf.BufferedLine` | native/linux-host/http-transport.cpp:91-101 | A line feed among the buffered bytes is the stream's first. |
| `ConnBuf.LineIsRead` | native/linux-host/http-transport.cpp:89-103 | A text up to a line feed is a line exactly if it has at most 65535 characters; a carriage return before the line feed is dropped, and nothing else. |
| `HttpServe.ParseQuery` | native/linux-host/http-transport.cpp:149-169 | The scanning loop computes the pairwise reading of the query, last value of a key first in force. |
| `HttpServe.ReadHead` | native/linux-host/http-transport.cpp:265-287 | The header loop over the buffer is the header fold over the stream. |
| `HttpServe.HandleConn` | native/linux-host/http-transport.cpp:226-334 | On every chunking of the bytes the handler calls and responses are those of the unbuffered server: same bodies, same order, same status codes. |
| `HttpLaws.RequestServed` | native/linux-host/http-transport.cpp:234-333 | One valid POST: one handler call with its exact body, then 200; one bodiless preflight: 204 and no call; the stream is then at the next request. |
| `HttpLaws.KeepAliveStream` | native/linux-host/http-transport.cpp:229-333 | Valid keep-alive POSTs in one stream, with preflights anywhere between them, cause one handler call each, with exact bodies and in order (sections 2.2, 6.3 and 9.3 of RFC 9112). |
| `HttpLaws.NoPayloadTooLarge` | native/linux-host/http-transport.cpp:304-313 | The 413 answer is unreachable: the dimension limits refuse such a body first. |
| `HttpLaws.UnfinishedHeadServedIff` | native/linux-host/http-transport.cpp:270-316 | Where the stream stops inside a header line, or that line is 64 KiB or longer, a request reaches the handler exactly if the headers so far are acceptable and the unread bytes are enough for its body; they are then its body. |
| `HttpTexts.SizedRequest` | native/linux-host/http-transport.cpp:234-333 | For a request written out character by character with its size in the query: 404 for another path, else 403 for another token, else 400 unless both sides are 1 to 4096 and the length is 4 w h, else one handler call with the body, w, h, target and engine of the text, and 200 or 500 as the handler answers. |
| `HttpTexts.HeaderSizedRequest` | native/linux-host/http-transport.cpp:265-333 | The same for a request with its size in the two headers and Connection: close. |
| `HttpTexts.FrameReachesHandler` | src/core/realesrgan-native-vulkan-client.ts:447-460 | The request the extension sends for a frame reaches the handler with that frame's own size and bytes and nothing else, on the whole connection. |
| `HttpTexts.PreflightRequest` | native/linux-host/http-transport.cpp:289-294 | A preflight, whatever its path and query, is answered 204 without a call. |
| `HttpTexts.ConnectionIs` | native/linux-host/http-transport.cpp:282-286 | A connection header ends the connection after its request exactly if "close" occurs in its value. |
| `HttpTexts.OtherVerb` | native/linux-host/http-transport.cpp:296-299 | Any other verb is answered 404, whatever follows. |
| `HttpTexts.MalformedLine` | native/linux-host/http-transport.cpp:237-246 | A first line with fewer than two blanks is answered 400. |
| `HttpTexts.AtoiText` | native/linux-host/http-transport.cpp:158-161 | A number is read behind white space, under its sign, up to the first other character. |
| `HttpTexts.AtoiNoNumber` | native/linux-host/http-transport.cpp:158-161 | A text that does not go on with a digit there is 0. |
| `Base64.Encode` | native/linux-host/main.cpp:116-143 | The loop and its two tails produce the specified text. |
| `Base64.Decode` | native/linux-host/main.cpp:145-204 | The quantum loop accepts and yields exactly what decoding the text without its whitespace does. |
| `Base64.RoundTrip` | native/linux-host/main.cpp:116-204 | decode(encode(d)) = d for every byte string. |
| `Base64.WhitespaceIsInvisible` | native/linux-host/main.cpp:150-167 | Whitespace inserted anywhere never changes the result, success or failure. |
| `Base64.DecodeSucceedsIff` | native/linux-host/main.cpp:168-197 | Decoding succeeds exactly on full quanta of alphabet symbols with padding only in the last one (sections 3.2, 3.3 and 4 of RFC 4648). |
| `Base64.ReEncodesIffCanonical` | native/linux-host/main.cpp:180-197 | Re-encoding gives the text back exactly if its pad bits are zero: section 3.5 of RFC 4648 is not enforced. |
| `Base64.TablesAgree` | native/linux-host/main.cpp:95-114 | The decoder's table inverts the encoder's. |
| `Base64.AlphabetIs` | native/linux-host/main.cpp:95-114 | Both tables are the alphabet of section 4 of RFC 4648, character by character. |
| `Base64.AlphabetText` | native/linux-host/main.cpp:95 | That alphabet written out. |
| `Base64.OutsideAlphabet` | native/linux-host/main.cpp:97-114 | No other character decodes. |
| `Base64.EncodedIs` | native/linux-host/main.cpp:119-143 | Every group of the output: the high six bits first, and = for a symbol that no byte reaches. |
| `Base64.DecodedIs` | native/linux-host/main.cpp:180-197 | Every byte of the decoder's output from the places of its group's symbols in the alphabet, pad bits ignored. |
| `Base64.ForeignCharacterFails` | native/linux-host/main.cpp:150-175 | A character outside the alphabet that is no white space and no = makes decoding fail. |
| `Base64.EncodedLength` | native/linux-host/main.cpp:117-118 | The length the encoder reserves is the length it emits. |
| `Framing.ReadFramed` | native/linux-host/main.cpp:255-280 | However the bytes arrive, the next message of the stream; an oversize one is drained to the next frame's first byte. |
| `Framing.Discard` | native/linux-host/main.cpp:267-273 | Draining in 64 KiB pieces removes exactly the announced number of bytes. |
| `Framing.RoundTripIff` | native/linux-host/main.cpp:255-293 | A payload written is read back exactly up to the 100 MiB limit. |
| `Framing.FrameOnTheWire` | native/linux-host/main.cpp:255-293 | The frame byte by byte: four length bytes from the lowest on and the payload, both written and read; up to 104857600 bytes it is delivered, above that reported. |
| `Framing.StreamStaysInStep` | native/linux-host/main.cpp:255-293 | Over any sequence of payloads, oversize ones and ones past 32 bits included, every later message is still read in step. |
| `StagingSlots.RealEsrganStagingSlots.Claim` | src/core/realesrgan-staging-slots.ts:55-66 | Claims the first free slot from the cursor on, which was free; refuses without changing anything. |
| `StagingSlots.RealEsrganStagingSlots.MarkPendingClaim` | src/core/realesrgan-staging-slots.ts:78-85 | Records the claim; one still pending is released, not overwritten. |
| `StagingSlots.RealEsrganStagingSlots.ReleasePendingClaim` | src/core/realesrgan-staging-slots.ts:95-99 | Takes the pending claim and frees its slot. |
| `StagingSlots.RealEsrganStagingSlots.TakePendingClaim` | src/core/realesrgan-staging-slots.ts:88-92 | Takes the pending claim and keeps its slot busy. |
| `StagingSlots.RealEsrganStagingSlots.Release` | src/core/realesrgan-staging-slots.ts:102-105 | Frees the claim's slot; a claim of another owner changes nothing. |
| `StagingSlots.RefusedIffAllBusy` | src/core/realesrgan-staging-slots.ts:55-66 | A claim is refused exactly if every slot is busy. |
| `StagingSlots.ClaimIsNextFree` | src/core/realesrgan-staging-slots.ts:55-66 | A claim takes the first free slot behind the cursor around the ring, and the cursor goes on behind it. |
| `StagingSlots.PendingIsNotLost` | src/core/realesrgan-staging-slots.ts:78-99 | A claim still pending when another is recorded, or recovered, has its slot freed; only the normal path keeps it busy. |
| `FrameJobs.FrameScheduler.NewestInFlight` | src/shared/realesrgan-pacing.ts:53-59 | The greatest frame in flight, or -1. |
| `FrameJobs.FrameScheduler.Skip` | src/shared/realesrgan-pacing.ts:34-40 | Counts the gap only while work is in flight and never moves backwards. |
| `FrameJobs.FrameJobRunner.Submit` | src/core/realesrgan-frame-job.ts:34-43 | Starts a job exactly below the depth and for a new frame; otherwise counts it as skipped. |
| `FrameJobs.FrameJobRunner.ClaimPresentation` | src/core/realesrgan-frame-job.ts:51-55 | Granted exactly to frames above everything granted before. |
| `FrameJobs.FrameJobRunner.ShouldStaleSkip` | src/core/realesrgan-frame-job.ts:68-70 | True exactly if some frame in flight is more than the threshold newer. |
| `AdmissionLaws.StartsIff` | src/core/realesrgan-frame-job.ts:34-43 | A frame whose copy is done starts exactly if it is newer than every frame seen and none or fewer than the depth are in flight; else it leaves the pipeline. |
| `AdmissionLaws.DepthIsReached` | src/shared/realesrgan-pacing.ts:17-20 | For every depth up to the slot count some run has that many frames in flight, and the next frame is then refused. |
| `AdmissionLaws.EnterStaleIff` | src/core/realesrgan-drain-processor.ts:130-137 | Where its drain begins a frame is skipped as stale exactly if a result has landed, the pipeline stands and a frame at least seven newer is in flight. |
| `AdmissionLaws.MappedStaleIff` | src/core/realesrgan-drain-processor.ts:311-323 | Behind its readback the same decides, unless the frame failed or the gate holds it. |
| `AdmissionLaws.DispatchedIff` | src/core/realesrgan-drain-processor.ts:274-327 | A frame read back goes to the network exactly if the pipeline stands, its crop could be cut, the session takes it, it is not stale, and it is not the third or later frame of one content behind a landed result. |
| `AdmissionLaws.PaintedIff` | src/core/realesrgan-drain-processor.ts:385-440 | A result is painted exactly if the pipeline stands, nothing newer was granted and its write succeeds. |
| `AdmissionLaws.EnterTakesBuffers` | src/core/realesrgan-drain-processor.ts:190-200 | A drain takes its two buffers from the pool where the pool has them. |
| `AdmissionLaws.DrainEnds` | src/core/realesrgan-drain-processor.ts:448-464 | Whatever becomes of a result, its drain gives its buffers back, those the pool keeps to the pool, and frees its slot. |
| `AdmissionLaws.DestroyIs` | src/core/realesrgan-pipeline.ts:962-997 | Destroying a pipeline forgets, once, what is in flight, granted and pooled; slots stay with their frames. |
| `AdmissionLaws.SkippedCountsFrames` | src/shared/realesrgan-pacing.ts:34-40 | While work is in flight refused frames raise the counter by as many frames as have gone by, seen or not; while none is, not at all. |
| `FramePipelineLaws.SlotsAreLinear` | src/core/realesrgan-pipeline.ts:638-770 | On every run, any completion order, failures and destroy included: a slot is busy exactly while one pending claim or one unreturned drain holds it, and every grant is released exactly once, by its own frame. |
| `FramePipelineLaws.BuffersAreLinear` | src/core/realesrgan-drain-processor.ts:190-453 | On every run no pooled buffer is in two drains or in a drain and the pool, and each acquisition is released exactly once, on every exit. |
| `FramePipelineLaws.QuietIsClean` | src/core/realesrgan-drain-processor.ts:448-464 | Once all is quiet every slot is free, every buffer back, the scheduler empty, and every started frame had exactly one of four ends. |
| `FramePipelineLaws.OwnershipKept` | src/core/realesrgan-pipeline.ts:638-770 | Each step of each callback keeps slot ownership linear. |
| `FramePipelineLaws.BuffersKept` | src/core/realesrgan-drain-processor.ts:123-464 | Each step keeps the buffer accounts balanced. |
| `FramePipelineLaws.SteadyKept` | src/core/realesrgan-drain-processor.ts:123-464 | Each step keeps admission, presentation order and progress. |
| `FramePipelineLaws.ShownAscend` | src/core/realesrgan-frame-job.ts:51-55 | Presented frame numbers strictly increase under any completion order. |
| `FramePipelineLaws.NewestIsNeverSkipped` | src/core/realesrgan-drain-processor.ts:130-137 | A frame is skipped as stale only behind one more than six newer that is still in flight. |
| `FramePipelineLaws.CanvasCatchesUp` | src/core/realesrgan-drain-processor.ts:311-323 | Once all is quiet the last frame shown is at least every started frame, skipped ones too, unless one at or above it was lost (failed, held, crop skipped, cut off by destroy); without losses it is the newest one started. |
| `StillFrameLaws.AloneIsServed` | src/core/realesrgan-pipeline.ts:638-770 | An idle pipeline admits a frame, shows its content unless inference or write fails, the crop is skipped or the frame is held, and is idle again. |
| `StillFrameLaws.StillImageShownIff` | src/core/realesrgan-drain-processor.ts:268-287 | After a new content's first two frames and any number of repeats on an idle pipeline, it is on the canvas exactly if one of those two was painted: "bytes already presented" holds then and only then. |
| `StillFrameLaws.RepeatsKeepThePicture` | src/core/realesrgan-drain-processor.ts:274-287 | Once a content was observed twice, no number of repeats changes the canvas, whatever their inference would have made of them. |
| `StillFrameLaws.HoldFindsPictureIff` | src/core/realesrgan-drain-processor.ts:274-287 | On every run and interleaving a hold finds its picture up exactly if the newest frame shown is of the current run or an older observation of the same content; with frames observed in order and a new content, exactly if some frame of the run was shown. |
| `StillFrameLaws.GateKept` | src/core/realesrgan-drain-processor.ts:268-287 | Each step keeps the gate's records true: the run is the frames last observed with one content, and the picture is what was observed for the newest frame shown. |
| `StillFrameLaws.EarlierPictureServes` | src/core/realesrgan-drain-processor.ts:274-287 | A hold can be right without any frame of its run shown: an earlier run of the same content is still up. |
| `StillFrameLaws.OvertakenRunIsHeld` | src/core/realesrgan-drain-processor.ts:274-287 | A hold can be wrong with a frame of its run shown: a newer frame of other content, observed before it, was shown after it. |
| `FallbackLedger.NativeSessionClient.BeginRequest` | src/core/native-session-client.ts:91-97 | Marks the entry it supersedes, adds its own unmarked one, touches no other. |
| `FallbackLedger.NativeSessionClient.StopSession` | src/core/native-session-client.ts:141-153 | Marks the video's entry, or every entry in the ledger when no video is named. |
| `FallbackLedger.NativeSessionClient.Answered` | src/core/native-session-client.ts:98-129 | What a response resolves to, and whether a compensating stop goes out. |
| `FallbackLedger.NativeSessionClient.Settled` | src/core/native-session-client.ts:130-139 | Removes the entry only while it is the request's own. |
| `FallbackLedger.NativeSessionClient.HasActiveFallback` | src/core/native-session-client.ts:157-160 | True exactly if the video's current entry is unmarked; a cancelled one does not count. |
| `FallbackRuns.ResolvesOkIff` | src/core/native-session-client.ts:91-140 | On every interleaving a request resolves as started exactly if its answer was ok and no later request for its video, no stop for it and no general stop came since it began; an absorbed success with a session id sends exactly one compensating stop, and nothing else sends one. |
| `FallbackRuns.OneActivePerVideo` | src/core/native-session-client.ts:81-97 | Per video at most one request in flight is unmarked, it is the ledger entry, and hasActiveFallback reports exactly that. |
| `FallbackRuns.NewerEntryStays` | src/core/native-session-client.ts:130-139 | An older settlement never removes a newer entry. |
| `FallbackRuns.NothingLeftBehind` | src/core/native-session-client.ts:130-139 | When every request is over the ledger is empty. |
| `NativeClient.RealEsrganNativeVulkanClient.TryEnter` | src/core/realesrgan-native-vulkan-client.ts:333-338 | One pass of the wait loop: park, throw or take a slot. |
| `NativeClient.RealEsrganNativeVulkanClient.LeaveSlot` | src/core/realesrgan-native-vulkan-client.ts:339-345 | Gives the slot back and wakes the first waiter. |
| `NativeClient.RealEsrganNativeVulkanClient.Dispose` | src/core/realesrgan-native-vulkan-client.ts:598-604 | Wakes everyone parked and parks nobody afterwards. |
| `NativeClient.RealEsrganNativeVulkanClient.ClaimUploadBuffer` | src/core/realesrgan-native-vulkan-client.ts:353-361 | The next slot's buffer if its size fits, else a new one there; filled with the caller's bytes; no other slot changes. |
| `NativeClient.PlanarToRgba` | src/core/realesrgan-native-vulkan-client.ts:52-69 | The packed pixel of every index, opaque. |
| `NativeClient.PackingIsNearest` | src/core/realesrgan-native-vulkan-client.ts:52-69 | A byte unpacked to [0, 1] packs to itself, so both paths upload the same bytes; packing is monotone and to a nearest byte. |
| `NativeClientRuns.NoLostWakeup` | src/core/realesrgan-native-vulkan-client.ts:333-345 | On every run at most eight requests are in flight, a caller is parked only while in-flight plus woken callers are at least eight, none is parked after dispose, and every caller is in exactly one place, so nobody is stuck. |
| `NativeClientRuns.GateIs` | src/core/realesrgan-native-vulkan-client.ts:333-345 | A caller enters exactly while fewer than eight requests are under way and the client stands, parks behind the others while eight are, and is refused after dispose; whoever leaves wakes the one parked longest. |
| `NativeClientRuns.AliasIff` | src/core/realesrgan-native-vulkan-client.ts:348-361 | Two claims get one buffer exactly if they are 8, 16, ... apart with no size change in that slot between; a request finds its own bytes exactly if no later claim is so related to it. |
| `NativeClientRuns.SharedIff` | src/core/realesrgan-native-vulkan-client.ts:353-361 | The same for the rotation alone. |
| `NativeClientRuns.OrderlyNeverAliases` | src/core/realesrgan-native-vulkan-client.ts:274-282 | If requests settle in claim order, every request in flight owns its buffer and finds its bytes in it. |
| `NativeClientRuns.SlowRequestIsOverwritten` | src/core/realesrgan-native-vulkan-client.ts:348-352 | Without that order one slow request loses its bytes to the eighth frame after it: the rotation alone does not protect it. |
| `Compose.BuildComposeBuffers` | src/core/realesrgan-compose.ts:43-71 | Fails exactly for a tile of the wrong length; otherwise descriptors and data are the tiles packed in order. |
| `Compose.SlicesPartition` | src/core/realesrgan-compose.ts:50-69 | Every packed float belongs to exactly one tile's slice. |
| `Compose.GatherTile` | src/core/realesrgan-compose.ts:109-127 | The loop body reads the tile's own pixel through the packed offsets and adds its weighted share. |
| `Compose.Gather` | src/core/realesrgan-compose.ts:104-127 | The invocation's sums are the tile-order accumulation, with no law of addition assumed. |
| `Compose.Scatter` | src/shared/realesrgan-compose-kernels.js:74-103 | The CPU loop leaves exactly those sums at every output pixel: gather equals scatter even for a non-associative addition. |
| `Compose.ScatterTile` | src/shared/realesrgan-compose-kernels.js:82-102 | One tile adds its share to the pixels it covers and leaves the others. |
| `ComposeLaws.WeightPositiveIff` | src/core/realesrgan-compose.ts:115-127 | For a window of at least one the total weight is at least 1 exactly on covered pixels. |
| `ComposeLaws.OneDivisor` | src/core/realesrgan-compose.ts:129 | max(weightSum, 1) and the CPU's zero test give one divisor. |
| `ComposeLaws.BlendIsConvex` | src/core/realesrgan-compose.ts:109-134 | A covered pixel stays within the range of its tiles' values. |
| `ComposeLaws.AgreementIsKept` | src/core/realesrgan-compose.ts:109-135 | Tiles that agree are reproduced exactly. |
| `ComposeLaws.WeightIsDepth` | src/core/realesrgan-compose.ts:115-120 | A tile weighs at least k exactly k pixels deep from each of its four edges, and at most the window. |
| `ComposeLaws.TileAdds` | src/core/realesrgan-compose.ts:109-127 | One more tile adds, per channel, its value in that plane at that pixel times its weight, and its weight; elsewhere nothing. |
| `ComposeLaws.LonePixel` | src/core/realesrgan-compose.ts:128-135 | A pixel under one tile shows that tile's own red, green and blue planes, whatever the weight; under none it is opaque black. |
| `ComposeLaws.SharedPixel` | src/core/realesrgan-compose.ts:109-134 | Under two tiles each channel is their mean by depth. |
| `ComposeLaws.ByteIsNearest` | src/core/realesrgan-compose.ts:131-133 | Bytes are nearest, halves up, and clamped at both ends. |
| `ComposeLaws.ComposeOnGpu` | src/core/realesrgan-compose.ts:97-136 | The dispatch writes the composed frame at every pixel. |
| `ComposeLaws.ComposeOnCpu` | src/shared/realesrgan-compose-kernels.js:74-132 | The fallback writes the same frame, pixel for pixel. |
| `OutputWriter.BarsTileTheOutput` | src/core/realesrgan-output-writer.ts:326-331 | The four bars and the paste tile the output: every pixel in exactly one of the five. |
| `OutputWriter.FillBarsIs` | src/core/realesrgan-output-writer.ts:321-337 | Filling makes everything outside the paste opaque black and leaves the paste. |
| `OutputWriter.PasteFitsIff` | src/shared/realesrgan-frame-decision.ts:159-180 | A granted paste lies inside the output exactly if the result is no larger than it. |
| `OutputWriter.RealEsrganOutputWriter.WriteTexture` | src/core/realesrgan-output-writer.ts:224-230 | Row by row the rectangle is replaced; out of range nothing is. |
| `OutputWriter.RealEsrganOutputWriter.WriteRgbaSubview` | src/core/realesrgan-output-writer.ts:219-251 | Padding rows to the copy alignment does not show. |
| `OutputWriter.RealEsrganOutputWriter.WriteRgbaResult` | src/core/realesrgan-output-writer.ts:202-211 | A full-frame write, which forgets the bars and the skip count. |
| `OutputWriter.RealEsrganOutputWriter.WriteResult` | src/core/realesrgan-output-writer.ts:411-439 | A full frame from the session, stretched into the output where its size is another, which forgets the bars. |
| `OutputWriter.RealEsrganOutputWriter.StretchNearestNeighbor` | src/core/realesrgan-output-writer.ts:469-505 | The loops fill exactly the output with the nearest source pixels. |
| `OutputWriter.NearestIs` | src/core/realesrgan-output-writer.ts:483-487 | The source pixel taken is inside the frame and is the one under the output pixel's left edge; the clamp never decides. |
| `OutputWriter.NearestKeepsOrder` | src/core/realesrgan-output-writer.ts:483-487 | The stretch keeps the order of pixels, and a frame of the output's size as it is. |
| `LetterboxLaws.PlainFrameIs` | src/core/realesrgan-output-writer.ts:202-230 | A plain frame no larger than the output is copied pixel for pixel to its upper left corner and leaves the rest; a larger one changes nothing; the bars are forgotten either way. |
| `LetterboxLaws.FullFrameIs` | src/core/realesrgan-output-writer.ts:411-505 | A frame from the session fills the output: each pixel is the source pixel at the same place in proportion, rounded down on both axes. |
| `OutputWriter.RealEsrganOutputWriter.WriteComposedResult` | src/core/realesrgan-output-writer.ts:148-200 | The GPU branch keeps the bar key; three failures retire the composer; otherwise the CPU frame is written. |
| `OutputWriter.RealEsrganOutputWriter.PresentCroppedResult` | src/core/realesrgan-output-writer.ts:271-314 | Mismatch, skip, escalation after four skips, or paste and bars. |
| `OutputWriter.RealEsrganOutputWriter.EnsureCropBarsFilled` | src/core/realesrgan-output-writer.ts:321-337 | Fills the bars exactly when the key is not the remembered one, and remembers it. |
| `LetterboxLaws.BarsAreRemembered` | src/core/realesrgan-output-writer.ts:202-337 | Over any sequence of full and cropped writes with one paste rectangle per crop and no GPU composition over remembered bars, a presented crop has black bars and its own content. |
| `LetterboxLaws.BarsBlackIff` | src/core/realesrgan-output-writer.ts:321-337 | After a crop is presented its bars are black exactly if its key was not the remembered one or all outside was black already. |
| `LetterboxLaws.CropLands` | src/shared/realesrgan-frame-decision.ts:159-180 | A crop's origin scales to the nearest output pixel, halves up; results that reach more than two pixels beyond the output are skipped, one or two are made up by moving back, and nothing is pasted left of or above it. |
| `LetterboxLaws.FourthSkipThrows` | src/core/realesrgan-output-writer.ts:298-310 | The fourth skip in a row throws and no earlier one. |
| `LetterboxLaws.ThreeFailuresRetire` | src/core/realesrgan-output-writer.ts:148-170 | Three composer failures in a row retire it; a drawn frame after two starts the count again. |
| `LetterboxLaws.GpuComposeLeavesItsPixels` | src/core/realesrgan-output-writer.ts:148-154 | Crop, GPU-composed frame, same crop: the bars are black exactly if the composed frame was black there. |
| `Srvgg.SrvggVulkan.RecordUpload` | native/linux-host/srvgg-vulkan.cpp:415-435 | The one-time upload latches when recorded, not when submitted. |
| `Srvgg.SrvggVulkan.InvalidateGpuWeights` | native/linux-host/srvgg-vulkan.cpp:437-444 | Clears the latch and nothing else. |
| `Srvgg.SrvggVulkan.RecordLayers` | native/linux-host/srvgg-vulkan.cpp:350-381 | The flip loop records the alternating dispatches and returns the buffer the last one wrote. |
| `Srvgg.SrvggVulkan.Run` | native/linux-host/srvgg-vulkan.cpp:297-413 | For every failing allocation and refused layer: what run and runTiled have recorded by then and how the weight latch stands. |
| `Srvgg.GpuRuntime.RunGpuFrame` | native/linux-host/gpu-frame.cpp:105-181 | For every combination of failures: what the exits around the engine attempt and the submit return, what has run on the device, and how the weight latch stands. |
| `SrvggLaws.PingPong` | native/linux-host/srvgg-vulkan.cpp:350-379 | For any layer count the two buffers compute the layers in sequence, and the frame survives for the residual. |
| `SrvggLaws.NeverReadsItsOutput` | native/linux-host/srvgg-vulkan.cpp:350-379 | No dispatch reads a buffer it writes. |
| `SrvggLaws.TailReadsLastLayer` | native/linux-host/srvgg-vulkan.cpp:380-411 | The tail combines the last layer's output with the frame, on both paths. |
| `SrvggLaws.ArmedIff` | native/linux-host/gpu-frame.cpp:108-172 | If weightsGpu_ set implied a submitted clone before a frame, it does after it, exactly unless the frame recorded the clone and left at line 135 or 145. |
| `SrvggLaws.EveryServedFrameIsIdeal` | native/linux-host/gpu-frame.cpp:105-181 | Over any run with any failures but those, every frame the engine serves is the sequential composition on the model's weights. |
| `SrvggLaws.OutcomeIs` | native/linux-host/gpu-frame.cpp:105-181 | The first step that fails is the one returned; without a failure the frame is served, by the engine exactly if it was asked for, has or gets its weights and buffers and meets no refused layer, else by the generic network, and then it is that network's picture of the frame. |
| `SrvggLaws.DroppedCloneIsUsed` | native/linux-host/gpu-frame.cpp:135-145 | After one of those exits the next faultless frame is served from a buffer never written to. |
| `SrvggManifest.LoadWeights` | native/linux-host/srvgg-vulkan.cpp:90-237 | The weights load exactly for manifests that meet the stated shape, geometry and bounds. |
| `SrvggManifest.CollectEntries` | native/linux-host/srvgg-vulkan.cpp:145-188 | The entry loop fails exactly on an incomplete or unknown entry and splits the rest in order. |
| `SrvggManifest.CheckBounds` | native/linux-host/srvgg-vulkan.cpp:213-231 | Passes exactly if every layer's weights and biases lie in the buffer and its slopes do not run past the end. |
| `SrvggManifest.AcceptedIsSafe` | native/linux-host/srvgg-vulkan.cpp:189-231 | Accepted: every weight and bias index lies in the buffer, the layers feed each other, and the tiled path refuses none of them. |
| `SrvggManifest.InterleavedLoadsIff` | native/linux-host/srvgg-vulkan.cpp:145-237 | A manifest of 18 convolutions with a slope entry behind each but the last loads exactly if its float count is whole, at most 64 Mi and the file's, the channels are 3, 64 and 48 in their places and every offset fits; layer i then has the numbers of its own two entries. |
| `SrvggManifest.SlopesSafeIff` | native/linux-host/srvgg-vulkan.cpp:226-230 | Slope reads stay in the buffer exactly if no slope offset is negative. |
| `SrvggManifest.NegativeSlopeIsAccepted` | native/linux-host/srvgg-vulkan.cpp:226-230 | Any accepted manifest stays accepted with a negative slope offset, and then reads before the buffer. |
| `Governor.NeverEnlargesIff` | native/linux-host/fp32-governor.h:31-43 | A plan enlarges no side exactly if both are at least 2 px, and then it has fewer pixels, whatever the lowest scale. |
| `Governor.WithinBudget` | native/linux-host/fp32-governor.h:36-41 | When neither floor binds, nw nh <= budget_px + s (w + h) / 2 + 1/4. |
| `Governor.PlansIff` | native/linux-host/fp32-governor.h:31-43 | There is a plan exactly for a budget, a target and 1 to 921600 pixels of which rounding at the scale takes a pixel off some side of at least 3; its sides are the nearest to the scaled ones, but at least 2. |
| `Governor.SpendsTheBudget` | native/linux-host/fp32-governor.h:36-41 | Where the root is the scale, nw nh is the budget up to s (w + h) / 2 from above and from below, 1/4 apart. |
| `Governor.AspectDrift` | native/linux-host/fp32-governor.h:40-41 | abs(nw h - nh w) <= (w + h) / 2 when the 2 px floor does not bind. |
| `Governor.NeverTiled` | native/linux-host/fp32-governor.h:34-43 | A governed frame of at least 2 px a side is never above the tiled threshold afterwards. |
| `UpscaleCore.RunUpscale` | native/linux-host/upscale-core.h:166-240 | Halving, governor and tiled decision hand on the specified pixels, and the buffer always has the announced size: shader halving and governor never meet. |
| `UpscaleCore.HalvingIs` | native/linux-host/upscale-core.h:176-211 | The halving in numbers: divisor 2, a target and at least 2 x 2 pixels; sides rounded up; by the shader if it is there and the half has at most 921600 pixels, else by the box; and fp16 frames are never governed. |
| `UpscaleCore.GovernedRunsOnce` | native/linux-host/upscale-core.h:212-226 | A governed frame of at least 2 px a side runs in one pass, on fewer pixels than it came with. |
| `UpscaleCore.BoxDownscaleRgba8` | native/linux-host/box-downscale.h:59-62 | The full-frame form is the row form over all rows. |

## Left out

- Float32, float16 and double rounding: network values, box averages, blending, the governor and the dimension expressions are exact reals with the source's own rounding to bytes or sizes.
- Integer widths: sizes, offsets and counters are unbounded, except the 32-bit frame length of `Framing`; `atoi` and `atoll` overflow and fractional or huge manifest offsets are not modelled.
- The network itself, all Vulkan, ncnn, WebGPU, D3D and ORT calls, shader binaries and allocators: kernels are arbitrary functions, allocations and submits succeed or fail as the environment likes.
- The regular-expression translation of GLSL into WGSL and HLSL text, macro expansion and the vendor files: passes and expressions are datatypes. Effect conditions (`//!WHEN`), the 1x1 projection kernel and depth-to-space are not part of this model.
- MisleadingSplices.RoundsNothingIff: quantifies over passes as the generator and the renderer take them, with bindings, sizes and helper names but no shader body; a splice is two passes around one of the list, because a mere continuation can round for itself and because a pass may overwrite the only resource of the size it was computed from.
- TiledComposer.FanOut: threads interleave row by row; interleavings inside a row write disjoint bytes too and are not distinguished.
- TiledComposer.Composer.Compose: hides which tile failed; stage and error texts of all components are not modelled.
- BoxDownscale.BoxDownscaleRows: the bilinear enlargement and the mixed-axis fallback of the GPU shader belong to targets the tiled path never asks for.
- ConnBuf.Socket.Recv: poll, deadlines, the stop flag and socket errors are one flag `healthy`; on an unhealthy connection only the loss-free part of the contracts holds. Constant-time token comparison, response heads and response texts are left out.
- Framing.ReadFramed: reads from a stream without errors or deadlines.
- FramePipeline.Step: the pipeline and the drain are one state machine on values, so sharing of their fields between callbacks is by construction; buffers of the pool are told apart by identity, not by size; crop detection, hashing (content keys stand for hashes, so no collisions) and phase statistics are left out, as are exceptions thrown by the release calls themselves.
- StagingSlots.RealEsrganStagingSlots.Release: a foreign claim is any claim object not made by these slots; GPU buffer destruction is left out.
- FallbackLedger.NativeSessionClient.Answered: response messages are left out, and the transport of a compensating stop cannot fail visibly because the source swallows its errors.
- NativeClient.RealEsrganNativeVulkanClient.TryEnter: fairness is not claimed; a woken caller may find its slot taken and park again at the end.
- ComposeLaws.ComposeOnCpu: requires tiles inside the frame, as the tile plan makes them; the single-tile fast lanes, the batched layouts and the ramp cache are left out.
- LetterboxLaws.BarsAreRemembered: needs one paste rectangle per crop and no GPU composition over remembered bars; `BarsBlackIff` says exactly when a single presentation is clean without either.
- OutputWriter.RealEsrganOutputWriter.WriteResult: takes packed pixels and scales coordinates exactly; the two prime passes before the first result are not part of this model.
- Srvgg.GpuRuntime.RunGpuFrame: the checks before the engine attempt are one outcome, and the pre-halving upload branch, which has none, is not distinguished.
- SrvggManifest.LoadWeights: file reading and JSON parsing are not part of this model; a weight file that cannot be read latches the engine off.
- Governor.WithinBudget: the square root is a parameter constrained to be one.
- Runner broker, runner guard, HTTP-info broker, lifecycle counters, overload tracker, session orchestration, site access, overlay, fullscreen layout and input bridging: separate state machines with short invariants that would only add easy members.
- Benchmarks, evidence scripts, build configuration and the website.
