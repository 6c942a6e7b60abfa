# Sound waveform model

This project is a Dafny model of the sound API of the server (`server/src/routes/api/sound.js`).
It covers three parts:

- **`calculateWave`.** This turns a decoded stereo sound into the `{ max, peaks }` object the
  player draws. It makes three passes:
  - It **down-mixes** the two channels: `|left[i]| + |right[i]|`, halved.
  - It **buckets** the mixed samples into chunks of `ceil(length / 100)` samples and pushes one
    "peak" per chunk.
  - It takes the **maximum** of the peaks with an initial-value-free `reduce`.
- **The wave handler's file lookup.** The upload copy `UPLOAD_PATH/sounds/<id>.mp3` is tried
  first. The public copy is used only when the upload copy is missing. Not-found is reported only
  when neither copy exists.
- **The upload handler's naming.** A converted sound is stored under
  `UPLOAD_PATH/sounds/<id>.mp3` for a fresh id, and the reply carries that id.

The modules follow the passes:

| module | file | contents |
|---|---|---|
| `Samples` | `samples.dfy` | `Math.abs` and sums and averages of real samples |
| `DownMix` | `downmix.dfy` | the down-mix loop, proved against the function `Mixed` |
| `Chunks` | `chunks.dfy` | the bucketing loop `ChunkPeaks`, proved against the reference definition `Peaks`, and the facts about bucket sizes, divisors and peak counts |
| `PeakMax` | `peakmax.dfy` | `Math.max` and the `reduce` fold |
| `Wave` | `wave.dfy` | `calculateWave` as a whole |
| `SoundRoutes` | `sound_routes.dfy` | the stored file names, the upload and the wave handler |
| `Wrappers` | `wrappers.dfy` | `Option` and `Result` |

## How the bucketing really behaves

The comments in the source say the samples are split into 100 chunks and averaged. The code does
something slightly different, and the model follows the code.

**The divisor is off by one after the first bucket.** The divisor is `(i + 1) - prev_i`.
`prev_i` starts at 0, but after each push it is set to the index `i` of the closing sample, not
to `i + 1`. So:

- The first bucket is divided by its sample count.
- Every later bucket is divided by its sample count plus one.

`Chunks.DivisorQuirk` states this. The constant-input lemmas show the effect: constant input
`v` gives a first peak of `v` (`Chunks.FirstConstantPeak`), but every later bucket of `m` samples,
the last one included, gives `v * m / (m + 1)` (`Chunks.LaterConstantPeak`). A full later bucket therefore gives `v * size / (size + 1)`
(`Chunks.FullConstantPeak`). `Chunks.ThousandHalfSamples` works an example: 1000 samples of 0.5
give 5/11 for the second and the last peak.

**The peak count is `ceil(length / ceil(length / 100))`.** This is at most 100 but not always 100.
For example, 101 samples give 51 peaks (`Chunks.PeakCountOf101`). For up to 100 samples there is
one peak per sample, and every peak after the first is halved (`Chunks.ShortInput`).

Because of the divisor quirk, the peaks are not averages. What is preserved is this: multiplying
each peak back by the divisor it was divided by, and adding up, gives the sum of all samples
(`Chunks.PeaksConserveSum`). So every sample is counted in exactly one bucket.

## Model

| member | source | states |
|---|---|---|
| Samples.Abs | server/src/routes/api/sound.js:55-57 | `Math.abs` is non-negative and is the sample or its negation |
| DownMix.DownMixChannels | server/src/routes/api/sound.js:59-64 | the loop yields one value per left sample, value `i` is `(abs(left[i]) + abs(right[i])) / 2`, all values are non-negative, and the result equals `Mixed(left, right)` |
| DownMix.MixedNonNegative | server/src/routes/api/sound.js:55-64 | the down-mix has the left channel's length and no negative value |
| DownMix.MixedOfIdenticalChannels | server/src/routes/api/sound.js:55-62 | with two identical channels the down-mix is the absolute value of the channel |
| Chunks.ChunkSize | server/src/routes/api/sound.js:68 | `chunkSize` is the least size whose 100 chunks cover the input (`Math.ceil(length / 100)`) |
| Chunks.PeakCount | server/src/routes/api/sound.js:68-80 | the number of buckets is the least count whose buckets of `chunkSize` cover the input, and 0 for empty input |
| Chunks.PeakCountBound | server/src/routes/api/sound.js:68-80 | at most 100 peaks, and at least one when there is a sample |
| Chunks.PeakCountOf101 | server/src/routes/api/sound.js:66-68 | 101 samples give chunks of 2 and 51 peaks, not 100 |
| Chunks.ShortInput | server/src/routes/api/sound.js:68-77 | up to 100 samples give chunks of 1 and one peak per sample; the first divisor is 1 and all later divisors are 2 |
| Chunks.BucketBounds | server/src/routes/api/sound.js:72-77 | every bucket starts at `k * chunkSize`, holds at least one sample and has a positive divisor |
| Chunks.DivisorQuirk | server/src/routes/api/sound.js:71-77 | every bucket except the last holds exactly `chunkSize` samples, and the last ends at the input's end; the first divisor is the first bucket's sample count, every later divisor is one more than its bucket's count, and a full later bucket divides by `chunkSize + 1` |
| Chunks.ClosesAt | server/src/routes/api/sound.js:74 | the close test holds after sample `i` exactly when `i` is the last sample of the bucket it lies in |
| Chunks.ClosedCount | server/src/routes/api/sound.js:72-74 | the close test `(i + 1) % chunkSize == 0` or `i + 1 == length` fires `n / chunkSize` times in the first `n < length` samples, and `PeakCount` times over the whole input, so one peak is pushed when both conditions hold |
| Chunks.BucketOfSample | server/src/routes/api/sound.js:72-73 | sample `i` lies in bucket `i / chunkSize`, which is one of the buckets |
| Chunks.SampleInOneBucket | server/src/routes/api/sound.js:72-73 | a sample lies in no other bucket |
| Chunks.ClosesAtBucketEnd | server/src/routes/api/sound.js:74 | `(i + 1) % chunkSize == 0 or i + 1 == length` holds exactly when `i + 1` is the end of the bucket `i / chunkSize` |
| Chunks.OpenBucket | server/src/routes/api/sound.js:72-73 | before sample `i` is added, fewer than all buckets have been closed and the open bucket starts at or before `i` |
| Chunks.CloseStep | server/src/routes/api/sound.js:74-78 | closing after `i` pushes the open bucket's `Peak`, starts the next bucket right after `i`, and leaves `prev_i == i` |
| Chunks.KeepStep | server/src/routes/api/sound.js:74 | when the close test fails, no peak is pushed |
| Chunks.ChunkPeaks | server/src/routes/api/sound.js:66-80 | the bucketing loop with `acc` and `prev_i` produces exactly the reference `Peaks`: bucket `k`'s sum over its divisor, for every bucket |
| Chunks.PeaksNonNegative | server/src/routes/api/sound.js:73-76 | non-negative samples give non-negative peaks |
| Chunks.UndividedBucket | server/src/routes/api/sound.js:73-78 | peak `k` times its divisor is the sum of bucket `k`'s samples |
| Chunks.PeaksConserveSum | server/src/routes/api/sound.js:70-78 | the sum over buckets of peak times divisor equals the sum of all down-mixed samples, so every sample is accumulated exactly once |
| Chunks.FirstConstantPeak | server/src/routes/api/sound.js:73-76 | on constant input `v` the first peak is `v` |
| Chunks.LaterConstantPeak | server/src/routes/api/sound.js:73-77 | on constant input `v` a later bucket of `m` samples, full or short, last or not, gives the peak `v * m / (m + 1)` |
| Chunks.FullConstantPeak | server/src/routes/api/sound.js:73-77 | on constant input `v` every full bucket after the first, other than the last, gives `v * chunkSize / (chunkSize + 1)` |
| Chunks.ThousandHalfSamples | server/src/routes/api/sound.js:66-80 | 1000 samples of 0.5 give 100 peaks: the first is 0.5, and the second and the last (bucket 99, divided by 11) are 5/11 |
| PeakMax.MathMax | server/src/routes/api/sound.js:83 | `Math.max` returns one of its arguments, and it is at least both of them |
| PeakMax.FoldMax | server/src/routes/api/sound.js:83 | the fold returns the seed or one of the remaining elements, and it is at least all of them |
| PeakMax.ReduceMax | server/src/routes/api/sound.js:83 | `reduce` without an initial value fails exactly on an empty array; otherwise it returns a peak that is at least every peak |
| Wave.WaveShape | server/src/routes/api/sound.js:45-86 | there is no wave exactly when the input is empty; otherwise there are `PeakCount` peaks (1 to 100), all non-negative, and `max` is one of them, non-negative and at least every peak |
| Wave.CalculateWave | server/src/routes/api/sound.js:45-86 | the three passes compute `WaveOf(left, right)`, fail exactly on empty input, and otherwise return 1 to 100 non-negative peaks whose maximum is `max` |
| SoundRoutes.SoundFile | server/src/routes/api/sound.js:35 | the stored name keeps the root and is `sounds/`, then the id, then `.mp3` |
| SoundRoutes.SoundFileInjective | server/src/routes/api/sound.js:35 | the unresolved name `sounds/<id>.mp3` under a root determines both the root and the id; with `path.resolve` this holds only for ids without `/` (uuids) |
| SoundRoutes.LocateSound | server/src/routes/api/sound.js:103-109 | not-found exactly when neither copy exists; the upload copy whenever it exists; the public copy only when there is no upload copy |
| SoundRoutes.GetWave | server/src/routes/api/sound.js:101-117 | the handler answers not-found exactly when neither copy exists; otherwise it answers with the decoded wave of the file `LocateSound` picks, which has 1 to 100 peaks and a non-negative `max` |
| SoundRoutes.PostSound | server/src/routes/api/sound.js:26-38 | the upload adds exactly the file `UPLOAD_PATH/sounds/<id>.mp3`, which holds the converted bytes; every other file keeps its contents, and a fresh id overwrites nothing; the reply carries the extracted artist and title and the same id |
| SoundRoutes.UploadThenLocate | server/src/routes/api/sound.js:35-38 | the id in the upload's reply locates the upload copy, which holds the converted bytes |
| SoundRoutes.UploadKeepsOtherLookups | server/src/routes/api/sound.js:35-36 | an upload does not change which file is found for any other id; with `path.resolve` this holds only for ids without `/`, since a percent-encoded `../` in the wave URL can reach the uploaded file |

## Left out

- Audio decoding with `web-audio-api` is left out. It is a foreign codec, so the decoder's output is
  two real-valued channels `left` and `right`. In `GetWave` the decoder is a function parameter,
  and `None` stands for a rejected file.
- Mono files are left out. On a mono file, `getChannelData(1)` has no second channel to read. The
  model always receives two channels.
- Unequal channel lengths are only partly modelled. The down-mix only reads `right[i]` for
  `i < |left|`, so the model requires `|left| <= |right|`.
- IEEE-754 rounding, `NaN`, infinities and the sign of zero in `Math.max` are left out. Samples
  are `real`.
- `convertSound`, `extractMetadataFromSound` and `uuidv4` are not part of this model. Their
  results are the parameters `converted`, `metadata` and `soundId` of `PostSound`.
- The filesystem is left out. `fs.writeFile`, `fs.readFile`, `fs.lstat` and `pathExists`, which
  swallows errors, are I/O. The model works with a map from paths to contents, or a set of
  existing paths. A failing write or read is not modelled.
- `path.resolve` normalisation is left out. A path is kept as its root and its relative name
  `sounds/<id>.mp3`, so an id containing `..` or `/` is not resolved.
- SoundRoutes.SoundFileInjective and SoundRoutes.UploadKeepsOtherLookups hold for unresolved
  names only. The wave handler's id is the decoded URL segment, so an id such as
  `../sounds/<uuid>` would resolve to another id's file; ids without `/` are not affected.
- Express routing, the session check, the body check and HTTP status codes are left out. The
  wave reply is the datatype `WaveReply`. A thrown `reduce` becomes `NoPeaks`, and a decoder
  rejection becomes `Undecodable`.
- The client files (the wave SVG, the pausable movie, the fetchers and the babel configuration)
  are UI, network or build code. They are not part of this model.
