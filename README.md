# Scanner tracker step and keyframe matching rules, in Dafny

This project models two parts of an object-scanning tool.

The first part is the video scanner. It tracks feature points on an object
from frame to frame and keeps a bounding box around them. For each frame it
does five things in order:

- it tops up the tracked point set with new corners when fewer than 50 are
  tracked;
- it keeps the points the optical flow followed successfully;
- it moves the box by their mean velocity;
- it nudges the box origin toward the points' centroid and blends the box
  size toward the points' enclosing rectangle;
- it clips the box to the frame and records one annotation line per frame.

The second part is the keyframe analyser. It uses Lowe's ratio test on
two-nearest-neighbour matches. With it, the analyser:

- picks the most similar frame;
- grows a descriptor set by the query rows that matched badly;
- builds the `(frame index, train row)` point lists that are later clustered.

The files:

- `masks.dfy` (`Masks`): selection by a boolean mask (`s[mask]`), with the
  positions it keeps.
- `matches.dfy` (`Matches`): the matcher's records and an `Option`.
- `geometry.dfy` (`Geometry`): points, integer boxes, the point-in-box test,
  box clipping, and truncation toward zero. Truncation is what storing a real
  value into the integer box array does.
- `annotations.dfy` (`Annotations`): the annotation line format, and a parser
  that reads it back.
- `tracker.dfy` (`Tracker`): the frame step.
  - Each stage is a function, and the lemmas are about those functions.
  - The class `FrameTracker` holds what the loop updates in place: the point
    set `p0`, the box `bb`, the annotation list and the frame counter.
  - Its methods are proved against those functions.
- `keyframes.dfy` (`Keyframes`): the ratio test, `most_similar`,
  `__acc_match` and the list-building loop of `cluster`.
  - Each loop is a method.
  - Each method is proved against a function that is defined step by step.

Library calls are replaced by their results: the corner detector, the
matchers, the optical flow, the median, the standard deviation and the
enclosing rectangle. These results enter the model as parameters. The
two-nearest-neighbour matcher is a function parameter `knn(query, train)`,
because `cluster` calls it with a train set that keeps growing.

The integer steps are modelled as the code does them, and the rest is
exact:

- Box coordinates are `int`. Every real-valued update written into the box
  goes through `Trunc`, which truncates toward zero.
- The centre uses floor division by 2. Dafny's `/` agrees with it for a
  positive divisor.
- Intermediate values (point positions, velocities, the centring offset and
  the size blend) are exact `real`s rather than the floating-point values the
  code computes; rounding is listed under "Left out".
- The norm comparison `‖p - c‖ < 2‖std‖` is compared on squares.
  `NearCentroidMeansNorms` shows that comparing squares decides the same
  question.

## Model

| member | source | states |
|---|---|---|
| Geometry.NegativeBoxIsEmpty | src/optical_flow.py:14-16 | the inclusive point test accepts no point for a box with negative width or height |
| Geometry.ClipKeepsFramePoints | src/optical_flow.py:14-33 | a point lies in the clipped box iff it lies in the original box and inside the frame |
| Geometry.ClipBox | src/optical_flow.py:18-33 | the clipped origin is `(max(x,0), max(y,0))` and the far edges are `min(x+w, W)` and `min(y+h, H)` |
| Geometry.ClipShrinks | src/optical_flow.py:18-33 | clipping never makes the width or height larger |
| Geometry.ClipIdempotent | src/optical_flow.py:18-33 | clipping a clipped box against the same frame gives it back unchanged |
| Geometry.ClipOutsideGoesNegative | src/optical_flow.py:18-33 | there is no lower clamp: `(100,0,10,10)` in an 80×80 frame clips to width -20 |
| Geometry.ClipOversizedBox | src/optical_flow.py:18-33 | `(0,0,100,100)` in an 80×80 frame clips to `(0,0,80,80)` |
| Geometry.Trunc | src/optical_flow.py:159-169 | storing a real into the int box drops the fraction toward zero: the floor for non-negative values and the ceiling for negative ones |
| Geometry.TruncInt | src/optical_flow.py:159-169 | storing an integral value stores it unchanged |
| Geometry.TruncMonotone | src/optical_flow.py:159-169 | storing preserves order |
| Geometry.TruncIsNotFloor | src/optical_flow.py:159-169 | truncation differs from floor on negative values: -2.5 is stored as -2, not -3 |
| Annotations.NatToString | src/optical_flow.py:38 | `%i` of a natural number is a non-empty run of digits with no leading zero |
| Annotations.NatRoundTrip | src/optical_flow.py:38 | reading back the digits of a natural number gives the number |
| Annotations.IntRoundTrip | src/optical_flow.py:38 | reading back `%i` of any integer, negative ones included, gives the integer |
| Annotations.NoSpaceInInt | src/optical_flow.py:38 | a `%i` field contains no space and no newline, so fields cannot run together |
| Annotations.LineRoundTrip | src/optical_flow.py:38 | each line `<file> 1 <x> <y> <w> <h> \n` determines its file name and box, even when the file name contains spaces |
| Annotations.LineHasOneNewline | src/optical_flow.py:38 | a line ends in its only newline when the file name has none |
| Annotations.TextLines | src/optical_flow.py:37-39 | the written text has exactly one line per annotation |
| Masks.SelectSpec | src/optical_flow.py:150-151 | `s[mask]` keeps exactly the entries whose mask bit is set, each once, in their original order |
| Masks.CountPartition | src/analyze.py:50-54 | every position is kept by exactly one of a mask and its negation |
| Tracker.NearCentroidMeansNorms | src/optical_flow.py:133 | the squared comparison holds iff the distance to the centroid is strictly below twice the std norm |
| Tracker.AdmittedSpec | src/optical_flow.py:128-134 | the accepted points are exactly those whose match distance is above 10 and that lie in the box or near the centroid, each once, in match order |
| Tracker.ReplenishedSpec | src/optical_flow.py:122-137 | replenishment keeps the old points as a prefix and never shrinks the set; it adds at most one point per match, nothing when 50 or more are tracked, and nothing from an empty match list |
| Tracker.StatusFilterSpec | src/optical_flow.py:149-151 | `good_new` and `good_old` are equally long, and their k-th entries are the new and old positions of the k-th point with status 1 |
| Tracker.SumOfVelocities | src/optical_flow.py:153-154 | the sum of the displacements is the difference of the position sums |
| Tracker.AvgVelIsMeanShift | src/optical_flow.py:153-154 | the mean velocity is the shift of the mean position |
| Tracker.UniformMotion | src/optical_flow.py:153-154 | when every point moved by the same vector, that vector is the mean velocity |
| Tracker.Center | src/optical_flow.py:161 | the centre lies half the size, rounded down, from the origin |
| Tracker.BlendBetween | src/optical_flow.py:169 | for a weight in [0,1], the size before truncation lies between the old size and the target side plus the absolute centring offset |
| Tracker.SizeBetween | src/optical_flow.py:153-169 | after a whole update, each stored side lies between the old side and the truncated goal (the target side plus the absolute centring offset) |
| Tracker.SizeStaysNonNegative | src/optical_flow.py:153-169 | non-negative sides and target sides stay non-negative under a weight in [0,1] |
| Tracker.NoSignalKeepsBox | src/optical_flow.py:153-169 | zero velocity and zero weights leave the box unchanged |
| Tracker.CenteredNoNudge | src/optical_flow.py:159-169 | when the centroid is the centre of the moved box, the centring step adds nothing, and a side equal to its target side is kept |
| Tracker.CenteredBoxIsStable | src/optical_flow.py:159-169 | a still box centred on the centroid and equal to its target is a fixed point at the default weights 0.1 |
| Tracker.FrameTracker.constructor | src/optical_flow.py:98-106 | the state starts from the first frame's corners and their rectangle, with no annotations and frame 0 |
| Tracker.FrameTracker.Replenish | src/optical_flow.py:122-137 | the in-place loop leaves `p0` equal to `Replenished` of the old `p0`, whose meaning `ReplenishedSpec` and `AdmittedSpec` give |
| Tracker.FrameTracker.UpdateBox | src/optical_flow.py:159-169 | the three slice assignments leave the box equal to `UpdatedBox` of the old box |
| Tracker.FrameTracker.Advance | src/optical_flow.py:149-239 | `p0` becomes the points with status 1 (line 238); the box is updated by their mean velocity; the clipped box is recorded with the frame's path (line 215); the frame counter goes up by one (line 239) |
| Keyframes.RatioMatchesSpec | src/analyze.py:25-28 | `__match` returns the best match of exactly the pairs passing the ratio test, in input order |
| Keyframes.BestOf | src/analyze.py:30-44 | the chosen frame index, if any, exists |
| Keyframes.BestOfSpec | src/analyze.py:33-44 | None iff no frame reaches the bar; otherwise the chosen frame reaches it, no qualifying frame scores higher, and every earlier qualifying frame scores strictly lower |
| Keyframes.MostSimilar | src/analyze.py:30-44 | the scan returns the choice `BestOf` makes over the frames' ratio-test scores, with bar `len(query) * confidence_floor` |
| Keyframes.BadRows | src/analyze.py:56-57 | `query[bad]` has one row per failing pair |
| Keyframes.AccPartition | src/analyze.py:49-54 | every pair lands in exactly one of `good` and `bad`; `good` records the second match's train row of each passing pair and `bad` the best match's query row of each failing pair, in order |
| Keyframes.AccMatch | src/analyze.py:46-59 | the loops return exactly `good`, and `train` followed by `query[bad]`; the train set grows by exactly the number of failing pairs |
| Keyframes.ClusterShape | src/analyze.py:68-73 | after any number of frames, `xs` and `ys` are equally long and `xs` holds earlier frame indices in non-decreasing order |
| Keyframes.Cluster | src/analyze.py:61-73 | the loop builds the lists `ClusterAfter` defines; they are equally long, and `xs` is made of non-decreasing frame indices |

## Left out

- Video capture, windows, drawing, key handling and writing image files. These are I/O and UI.
- Argument parsing and path checks. They are command-line plumbing, so the two weights and the frame's path are parameters.
- Opening the annotations file in append or overwrite mode. `Text` models only the characters written.
- The corner detector, the optical flow, the point and descriptor matchers, the enclosing rectangle, the median and the standard deviation. They are foreign library calls, so their results are parameters.
- Tracker.FrameTracker.Replenish: the corner detector returns None when it finds no corner. The source then raises at the reshape on optical_flow.py line 125, and on the first frame at `boundingRect` on line 99. The model takes the detector's result as a list and treats that case as an empty proposal list, which leaves `p0` unchanged.
- The centroid and std are computed by the caller. They come from the points held before replenishment, and the same values are passed to `Replenish` and `Advance`.
- The path where the optical flow returns nothing (`p1 is None`). It leaves `good_new` from the previous frame, and the model always receives a flow result.
- Tracker.FrameTracker.Advance: requires at least one point with status 1. The source takes the mean of an empty array there, which gives NaN, and real numbers have no NaN.
- Floating-point rounding. Reals are exact, and only the integer box's truncation is modelled.
- The box is an array mutated by slice assignments. Here it is a value held in a field and reassigned; nothing else refers to it.
- Commented-out code. It is inactive.
- The ORB feature extraction, the KMeans fit, the nearest-centroid lookup and progress printing. They are library wrappers and console output.
- The matcher may return fewer than two neighbours for a query row. Each match record here always holds two.
- Keyframes.Cluster: requires at least one frame; the source raises IndexError at `dcss[0]` on an empty list. The same precondition is on `ClusterAfter` and `ClusterShape`.
- Keyframes.MostSimilar: returns the index of the chosen frame rather than the frame object.
