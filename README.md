# INNNultrafast dose pipeline in Dafny

A model of the analysis core of three Streamlit pages that turn a two-channel
ionisation-chamber recording (rows `number, time, ch0, ch1`) into dose curves:

- `pddsinglescan.py` and `ultrafastanalysis.py` (one single-scan pipeline):
  the pipeline first zeroes both channels against the no-beam prefix
  (`time < lim0`). It flags candidate pulses strictly above 1.40 × the
  baseline maximum. It keeps the first row of each coincident pair as the
  pulse and folds the successor's charge into it. It converts charge to dose
  with the ACR factor. It cuts the strict window `lim1 < time < lim2` and
  places each row at `depth − speed·(t − t_first)` with
  `speed = depth / (lim2 − lim1)`. Finally it drops incomplete rows, smooths
  with a centred rolling mean and normalises to 100.
- `pages/pddwithprofiles.py`: the same zeroing, flags and merge, with no ACR.
  It then segments the recording into shots:
  - chunks of 300 sample numbers;
  - per-chunk start/finish time and charge sum, dropping the first and last
    chunk;
  - chunk-sum jumps over ±40;
  - runs of edges collapsed when they lie within 2 s of each other;
  - padding by 0.5 s;
  - start and finish paired with `zip`, and rows labelled strictly inside a
    shot, where a later shot wins.

  After segmentation it averages each shot's doses at or above percent of
  the shot maximum. It maps the 18 shots (or, when no pulse row lies in a
  shot, 18 undefined ones) onto the fixed crossplane/inplane × depth
  table, groups them by depth (mean and sample variance) and normalises to
  a PDD percentage.

Values are Dafny `real`. Every pandas NaN is an `Option` that is `None`. The
in-place column overwrites become methods over local arrays:
- `Pulses.MarkAccepted` for the pulse flags;
- `Pulses.MergeCoincident` for the two additions followed by the zeroing
  mask;
- `Segmentation.LabelShots` for the shot-labelling loop.

Each of these methods is proved equal to a pure definition, and the
properties are proved about that definition. `Pipelines.ScanPdd` and
`Pipelines.ProfilesPdd` run the pages end to end through those methods.
Python exceptions are `Pipelines.Error` values:
- a zero speed span;
- an `iloc[0]` of an empty edge series;
- a number of labelled shots (shots holding at least one pulse row) other
  than 0 or 18.

Four behaviours of the code worth noting:
- a shot's maximum dose qualifies for its own mean only when the maximum is
  not negative, or when the percentage is 100. With an all-negative shot and
  percent < 100 no dose qualifies, and the mean dose is undefined
  (`Aggregation.MeanDoseDefined`);
- the PDD percentage is at most 100 when the smoothed peak is positive, but
  rows whose smoothed dose is negative get a negative percentage;
- an empty baseline window does not raise. On the single-scan pages every
  pulse dose becomes undefined and the table comes out empty. On the profile
  page every chunk sum becomes 0, so no start edge is found;
- a profile recording in which no pulse row falls inside any shot does not
  raise. The empty per-shot table takes the 18 rows of the direction list,
  with an undefined mean dose in each, and the page yields 9 depth rows
  whose mean, variance and PDD are all undefined
  (`Aggregation.UnlabelledDepthTable`).

## Model

| member | source | states |
|---|---|---|
| Stats.MaxDefined | pddsinglescan.py:50 | the NaN-skipping maximum is defined iff some cell is defined, bounds every defined cell and is attained by one |
| Stats.MeanDefined | pages/pddwithprofiles.py:105 | the NaN-skipping mean is defined iff some cell is defined, and lies between the least and the largest defined value |
| Stats.SampleVariance | pages/pddwithprofiles.py:106 | the ddof=1 variance is defined iff at least two cells are defined, and is never negative |
| Stats.PairMean | pages/pddwithprofiles.py:105 | two defined cells keep both values and average to their midpoint |
| Stats.PairVariance | pages/pddwithprofiles.py:106 | the sample variance of two values is their spread (a − b)²/2 |
| Stats.MeanWithinExtremes | pddsinglescan.py:44 | a mean lies between the minimum and the maximum of its values |
| Stats.PercentBounds | pddsinglescan.py:125 | x as a percentage of m, times m, gives 100·x; it is 100 at m itself, at most 100 for x ≤ m and at least 0 for x ≥ 0 when m is positive |
| Stats.NormalisedCell | pddsinglescan.py:125 | a defined cell normalises to its percentage of the column maximum, at most 100 when that maximum is positive and exactly 100 at the maximum |
| Stats.NormalisedPeak | pddsinglescan.py:125 | normalising by a non-zero maximum keeps definedness cell by cell, gives exactly 100 at a maximising cell, and stays at or below 100 when the maximum is positive |
| Zeroing.NoBeamMembers | pddsinglescan.py:43 | the no-beam rows are exactly the rows with time strictly before lim0 |
| Zeroing.BaselineOf | pddsinglescan.py:44 | the per-channel baseline is undefined exactly when no row lies before lim0 |
| Zeroing.Zero | pddsinglescan.py:43-47 | zeroing is defined iff the baseline is, and keeps length, times and sample numbers |
| Zeroing.NoBeamOfSubtracted | pddsinglescan.py:43-45 | subtracting the baseline and then taking the no-beam rows is the same as taking them first |
| Zeroing.CentredSumIsZero | pddsinglescan.py:44-45 | values centred on their own mean sum to 0 |
| Zeroing.SubtractedMeansZero | pddsinglescan.py:44-47 | subtracting a set of rows' own channel means leaves both channels with mean 0 over them |
| Zeroing.ZeroedBaselineMeanIsZero | ultrafastanalysis.py:33-37 | after zeroing, the no-beam window is non-empty and both channels have mean 0 over it |
| Zeroing.BaselineMaxNonNegative | pddsinglescan.py:50 | the maximum of the zeroed ch0 baseline is at least 0 |
| Pulses.Continuation | pddsinglescan.py:58 | a row is a continuation iff it and its predecessor are candidates; the first row never is |
| Pulses.Accepted | pddsinglescan.py:59-60 | a row is a pulse iff it is a candidate whose predecessor is not |
| Pulses.MarkAccepted | ultrafastanalysis.py:48-50 | the copy-then-mask loop produces exactly the accepted flags |
| Pulses.NoBaselineRowIsCandidate | pddsinglescan.py:50-51 | no row before lim0 is a candidate |
| Pulses.NoAdjacentAccepted | pddsinglescan.py:58-60 | every pulse is a candidate and no two adjacent rows are both pulses |
| Pulses.AcceptedCount | pddsinglescan.py:89-90 | pulses plus coincident rows count exactly the candidates |
| Pulses.AcceptedCountEqualIffNoCoincidence | pddsinglescan.py:89-90 | the pulse count never exceeds the candidate count, and equals it iff no row is coincident |
| Pulses.MergeCoincident | ultrafastanalysis.py:53-59 | the ordered masked overwrites of both channels produce the merged channels |
| Pulses.AddSuccessor | ultrafastanalysis.py:57-58 | the masked addition leaves every coincident row holding its own and its successor's charge and every other row unchanged |
| Pulses.ClearContinuations | ultrafastanalysis.py:59 | zeroing the continuation rows after the addition yields the merged column |
| Pulses.MergedPair | pddsinglescan.py:67-69 | an isolated candidate pair receives both charges on its first row and 0 on its second, preserving the pair's sum |
| Pulses.MergedRun | pddsinglescan.py:67-69 | in a run of two or more candidates the first row holds its own and its successor's charge, every later row is 0 and not a pulse, and the first row is a pulse |
| Pulses.MergedElsewhere | pddsinglescan.py:63-69 | a row that is neither coincident nor a continuation keeps its zeroed charge |
| Pulses.ChargeBalance | pddsinglescan.py:63-69 | the merged total is the zeroed total minus the charge dropped inside runs of three or more |
| Pulses.ChargeConservedWithoutLongRuns | pddsinglescan.py:63-69 | without three consecutive candidates the merge conserves the total charge |
| Dose.DoseOfMergedIsMergedDose | pddsinglescan.py:94 | the dose of the merged channels is the merge of the per-row doses |
| Dose.PulseDoseAt | ultrafastanalysis.py:71-74 | the pulse dose is defined exactly on pulse rows, and on a merged pair it is the sum of both rows' ch0 − ACR·ch1 |
| Dose.PulseRows | pages/pddwithprofiles.py:66 | the pulse table has one row per pulse |
| Dose.PulseRowsMembers | pages/pddwithprofiles.py:65-66 | a row is in the pulse table iff it is the time and dose of some pulse row |
| Position.WindowRows | pddsinglescan.py:101 | the window holds exactly the rows with lim1 < time < lim2, and ordered rows stay ordered |
| Position.WindowKeepsOrder | pddsinglescan.py:101 | cutting the window keeps the rows' time order |
| Position.Speed | pddsinglescan.py:102-103 | the speed is undefined iff lim1 == lim2, and otherwise covers the depth over the span |
| Position.SpeedNonNegative | pddsinglescan.py:102-103 | a forward window and a non-negative depth give a non-negative speed |
| Position.TravelTelescopes | ultrafastanalysis.py:84-86 | the cumulated distance up to row k is speed × the elapsed time |
| Position.PositionAt | pddsinglescan.py:108-113 | the position is undefined on the first window row and is depth − speed·(t_k − t_first) on every later one |
| Position.PositionsNonIncreasing | pddsinglescan.py:108-113 | with ordered times and a non-negative speed the position never increases |
| Position.PositionsWithinDepth | ultrafastanalysis.py:77-89 | inside the window every defined position lies between 0 and the depth |
| Finishing.DropUndefinedMembers | pddsinglescan.py:119 | a row survives `dropna` iff it has a pulse dose, a position and is not the recording's last row |
| Finishing.DropUndefinedKeepsOrder | pddsinglescan.py:119 | dropping incomplete rows keeps non-increasing positions |
| Finishing.RollingCell | pddsinglescan.py:123 | the centred rolling mean is defined iff the whole window fits, and is then the mean of exactly w values |
| Finishing.RollingNonEmpty | ultrafastanalysis.py:99 | some smoothed value is defined iff there are at least w rows |
| Finishing.RollingOfOne | pddsinglescan.py:121-123 | a window of one leaves every dose unchanged |
| Finishing.RollingWithin | pddsinglescan.py:123 | smoothed values stay within any bounds of the doses |
| Finishing.KeepMembers | pddsinglescan.py:131 | a displayed row is the position, smoothed dose and PDD of a row where both are defined |
| Finishing.KeepKeepsOrder | pddsinglescan.py:131 | the displayed table keeps non-increasing positions |
| Finishing.NormalisedNonEmpty | pddsinglescan.py:125-131 | the normalised table is non-empty iff some smoothed value is defined and the maximum is not 0 |
| Finishing.PddTableNonEmpty | pddsinglescan.py:119-131 | the PDD table is non-empty iff there are at least w complete rows and the smoothed maximum is not 0 |
| Finishing.NormalisedRow | pddsinglescan.py:125 | every displayed row's PDD is its smoothed dose relative to the non-zero maximum, at most 100 when the maximum is positive |
| Finishing.PddTablePeak | ultrafastanalysis.py:99-107 | a non-empty table has a row with the largest smoothed dose and PDD exactly 100, relative to which all PDDs are scaled |
| Segmentation.ChunkOfMonotone | pages/pddwithprofiles.py:75 | the chunk key never decreases as the sample number increases |
| Segmentation.InChunkMembers | pages/pddwithprofiles.py:75-77 | a chunk holds exactly the rows whose number div 300 is its key |
| Segmentation.InChunkNonEmpty | pages/pddwithprofiles.py:76-77 | a chunk is non-empty iff its key occurs among the rows |
| Segmentation.StatBounds | pages/pddwithprofiles.py:76-77 | a chunk's start and finish time bound every row of the chunk and are attained by rows of it |
| Segmentation.GroupKeys | pages/pddwithprofiles.py:76 | the group keys are strictly ascending and are exactly the occurring chunk keys |
| Segmentation.ChunkTableKeys | pages/pddwithprofiles.py:76-77 | every chunk-table row is its key's statistics, keys ascend strictly, and every sample's chunk appears |
| Segmentation.ChunkTimesOrdered | pages/pddwithprofiles.py:76-77 | on an ordered recording chunk start times and finish times never decrease |
| Segmentation.TransitionsMembers | pages/pddwithprofiles.py:80-88 | a start time is a kept chunk, not the first, whose sum rose by more than 40; a finish time one whose sum fell by more than 40 |
| Segmentation.TransitionsOrdered | pages/pddwithprofiles.py:85-88 | with ordered edge times the transition times never decrease |
| Segmentation.Collapse | pages/pddwithprofiles.py:86 | collapsing is defined iff there is a candidate, starts with the first candidate and is no longer than the candidates |
| Segmentation.CollapseMembers | pages/pddwithprofiles.py:86-89 | the collapsed list holds the first candidate and exactly the candidates more than 2 after their predecessor |
| Segmentation.CollapseSpacing | pages/pddwithprofiles.py:86-89 | collapsed ordered candidates are pairwise more than 2 apart, hence strictly increasing |
| Segmentation.PadKeepsSpacing | pages/pddwithprofiles.py:87-90 | padding shifts every time by the same amount and keeps every difference |
| Segmentation.ShotCount | pages/pddwithprofiles.py:91 | the shot count is the smaller of the two list lengths |
| Segmentation.ShotOfSpec | pages/pddwithprofiles.py:91-95 | a row is unlabelled iff it lies strictly inside no shot, and otherwise carries the last shot it lies strictly inside |
| Segmentation.LabelShots | pages/pddwithprofiles.py:91-95 | the labelling loop leaves on every row the label of the last shot containing it |
| Aggregation.AtLeastMembers | pages/pddwithprofiles.py:102 | the selection holds exactly the doses at or above the bound |
| Aggregation.AtLeastBounds | pages/pddwithprofiles.py:102 | every selected dose lies between the bound and the maximum, and the selection is non-empty iff the maximum reaches the bound |
| Aggregation.MeanAbove | pages/pddwithprofiles.py:102 | the mean of the selected doses is defined iff the maximum reaches the bound, and then lies between the bound and the maximum |
| Aggregation.MeanDose | pages/pddwithprofiles.py:102 | the shot mean is defined iff percent/100 × max ≤ max, and then lies between those two |
| Aggregation.MeanDoseDefined | pages/pddwithprofiles.py:100-102 | for percent in [0, 100] the shot mean is defined iff the maximum is non-negative or percent is 100, and at 100 it is the maximum |
| Aggregation.ShotDosesMembers | pages/pddwithprofiles.py:102 | a shot's doses are exactly the doses of the rows labelled with it, non-empty iff the label occurs |
| Aggregation.ShotKeys | pages/pddwithprofiles.py:102 | shot groups are strictly ascending and are exactly the labels that occur |
| Aggregation.ShotMeansGroups | pages/pddwithprofiles.py:102 | every labelled row's dose belongs to its shot's group, groups are distinct, and each group's value is the mean dose of its non-empty dose list |
| Aggregation.ShotProtocol | pages/pddwithprofiles.py:103-104 | the fixed table lists 18 shots, crossplane then inplane at each of the 9 ascending depths |
| Aggregation.ShotLayout | pages/pddwithprofiles.py:101-104 | row i of the shot table carries shot i's mean dose at depth key i/2, crossplane for even i and inplane for odd i |
| Aggregation.SelectPair | pages/pddwithprofiles.py:105 | grouping the shot table by a depth yields that depth's crossplane and inplane means |
| Aggregation.PairStats | pages/pddwithprofiles.py:105-106 | the mean and variance of a depth's two shots in each case of definedness |
| Aggregation.DepthTableRows | pages/pddwithprofiles.py:105-106 | each of the 9 depth rows carries its depth, the mean and the sample variance of its two shots |
| Aggregation.UnlabelledDepthTable | pages/pddwithprofiles.py:101-107 | with no shot the depth table still has 9 rows at the fixed depths, none with a mean, a variance or a PDD |
| Aggregation.UndefinedDepthTable | pages/pddwithprofiles.py:105-107 | a table laid out by depth pairs whose mean doses are all undefined gives a depth table with no defined mean, variance or PDD |
| Aggregation.DepthTablePeak | pages/pddwithprofiles.py:107 | with a non-zero largest depth mean, PDD is defined exactly where the mean is, is 100 at the largest mean, and at most 100 when that mean is positive |
| Pipelines.ScanTable | pddsinglescan.py:101-103 | the single-scan analysis fails iff lim1 == lim2 (the division by zero) and yields an empty table when no row precedes lim0 |
| Pipelines.PositionBounds | pddsinglescan.py:101-113 | over an ordered window every defined position lies in [0, depth] and positions never increase |
| Pipelines.PddRowsWithin | pddsinglescan.py:101-119 | the complete rows lie inside the window, within [0, depth], deepest first |
| Pipelines.PddTableWithin | pddsinglescan.py:119-131 | smoothing and normalising keep those bounds and the order, and a non-empty table is normalised at its peak |
| Pipelines.ScanRowsOrdered | pddsinglescan.py:43-98 | the derived rows of an ordered recording keep its time order |
| Pipelines.ScanTableProperties | pddsinglescan.py:43-131 | on an ordered recording with lim1 < lim2 and depth ≥ 0 the table exists, lies inside the window and [0, depth], descends in position and is normalised at its peak |
| Pipelines.ScanPdd | ultrafastanalysis.py:33-107 | the page run through the overwriting steps yields the single-scan analysis, failing iff lim1 == lim2 |
| Pipelines.ShotBounds | pages/pddwithprofiles.py:85-90 | shot detection fails iff the kept chunks have no rising or no falling transition, reporting the missing start first; found bounds are the padded collapsed rising and falling transitions, both non-empty |
| Pipelines.TrimmedEdgesOrdered | pages/pddwithprofiles.py:76-79 | on an ordered recording the kept chunks' edge times never decrease |
| Pipelines.ShotBoundsSpaced | pages/pddwithprofiles.py:75-90 | on an ordered recording the padded starts are pairwise more than 2 apart, and so are the padded finishes |
| Pipelines.LabelsOf | pages/pddwithprofiles.py:91-95 | one label per pulse row, every label below the shot count |
| Pipelines.LabelsOfSpec | pages/pddwithprofiles.py:95 | a pulse row labelled k lies strictly inside shot k and inside no later shot; an unlabelled row lies inside none |
| Pipelines.DepthsOf | pages/pddwithprofiles.py:101-107 | the aggregation fails iff the number of labelled shots is neither 18 nor 0, always with the table-mismatch error; a finished table has 9 rows at the fixed depths |
| Pipelines.DepthsOfRows | pages/pddwithprofiles.py:101-107 | a finished depth table comes from exactly 18 labelled shots or from none; with 18 each depth row holds the mean and variance of its two shot means, with none every row has an undefined mean, variance and PDD |
| Pipelines.ProfileTable | pages/pddwithprofiles.py:38-108 | with no row before lim0 the page fails at the start edge; it fails only at a missing edge or at a shot count other than 0 or 18; a finished table has 9 rows at the fixed depths |
| Pipelines.ZeroedProfile | pages/pddwithprofiles.py:55-108 | once zeroing succeeded, the page fails only at a missing edge or at a shot count other than 0 or 18, and a finished profile table has 9 rows at the fixed depths |
| Pipelines.ProfileDepths | pages/pddwithprofiles.py:90-108 | the labelling loop followed by the per-shot and per-depth tables yields the aggregation, failing iff the number of labelled shots is neither 18 nor 0 |
| Pipelines.ProfilesPdd | pages/pddwithprofiles.py:55-108 | the page run through the overwriting steps and the labelling loop yields the profile analysis, 9 rows at the fixed depths |

## Left out

- Reading the recordings (S3, `glob`, `read_csv`, caching): the parsed series is the input.
- Streamlit widgets, `st.write` and every Plotly figure and guide line: the widget values are parameters.
- IEEE floating point: values are exact reals, and NaN is an undefined cell.
- Slider ranges: the smoothing width is any w ≥ 1 (the pages allow 1–200 and 1–400); percent is any real (the page allows 80–100).
- The general statistics printed to the page (sample, pulse and coincidence counts) are not a table; `Pulses.AcceptedCount` states how the two counts relate.
- `firstpos1pdd`, `lastpos1pdd`, `avgtimebetweenpulses` and `pulsespermm` (pddsinglescan.py:111-117): computed and never used.
- The `shot` column written into `dfz` (pages/pddwithprofiles.py:94): nothing reads it; only the pulse table's labels are modelled.
- Aggregation.DepthTableRows: states the sample variance of each depth's two shots, not its square root, because exact reals have no square root; the standard deviation column and the mean error (pages/pddwithprofiles.py:114) built from it are therefore not modelled.
- Stats.Normalise: a zero maximum leaves every cell undefined, where pandas produces infinities and NaN.
- Segmentation.ChunkTable: the charge sum is over the merged ch0 column with exact reals; NaN charges are not modelled separately, and an undefined baseline is reported as a missing start edge.
- `pages/profilesat10cmdepth.py` is not part of this model: it reads and plots a file and computes nothing.
