# Verified models of the sentry robot stack

This project models the parts of a ROS 2 robot stack that are algorithms rather than input and output, and proves what
they promise for all inputs and all runs. Code that works in place is modelled in place: buffers are fields of classes,
grids are arrays, loops are loops with invariants; each such method is proved against a function, and the results are
proved about that function. `dafny verify dfyconfig.toml` checks everything.

| modules | what they are |
|---|---|
| `ShiftRegister`, `Crc16` | the checksum of the serial link: the table-driven code is the bit-serial register of Appendix C.2 of RFC 1662 (without the final complement), and what the link detects |
| `LidarFusion` | pairing the frames of two lidars, and when the greedy pairing is optimal |
| `ImuSync`, `ImuPredict` | cutting the IMU stream into batches, and the high-rate prediction with its cache |
| `MappingRun`, `MappingDelivery`, `PredictionRun`, `StaleScan` | whole runs of the mapping node over any interleaving of its callbacks |
| `LaserMapping` | the mapping node itself: its buffers and callbacks, proved to do what the runs are about |
| `TerrainErosion`, `TerrainConnectivity`, `RollingWindow` | the terrain grids: erosion from cells without data, the flood fill that removes ceilings, the window of voxels that follows the vehicle |
| `Pursuit` | the look-ahead point and the pose at an arc length of the path |
| `PoolAllocator`, `Allocators` | the memory pool of the bundled JSON library, as a pool of address ranges and as a linked list of chunks |
| `DistanceHeap`, `KdTree`, `KdOrder`, `NearestSearch` | the bounded max-heap, the incremental k-d tree with its deferred deletions, and its nearest-neighbour search |
| `Undistort` | the backward sweep that compensates the motion within a scan |
| `RecoveryNodes`, `MissionManagers` | the retry node of the behaviour tree and the mission that maps the field |

## Where the code falls short of a promise

Each of these comes with an input that shows it and with the condition under which the promise holds, if and only if.

- Fusing lidar frames is meant to pair as many as possible. A left frame exactly 5 ms after the right head is dropped
  even if a later right frame is close to it (`LidarFusion.TieExample`). Exactly one pair is lost for each such tie
  after which a right frame is left over (`LidarFusion.EachCostlyTieCostsAPair`), so the pairs are as many as possible
  exactly when there is none (`LidarFusion.FusesMostIffNoCostlyTie`); at every length of the left stream, exactly when
  no such frame is dropped at all (`LidarFusion.FusesMostIffNoHarmfulTie`). The two differ
  (`LidarFusion.TieMadeUpForExample`).
- The queue of fused scans is meant to be delivered front first. A loop-back of a lidar empties the queue but not the
  scan taken up from it (`StaleScan.StaleScanExample`). A delivery is the front one exactly when there was no such
  loop-back since the scan was taken up (`StaleScan.RunDelivers`, `StaleScan.StaleByLoopBack`).
- The flood fill is meant to find what small steps reach. A cell excluded first is not taken back when a cell a small
  step away is visited later (`TerrainConnectivity.RampExample`, `TerrainConnectivity.FindsAllIffNoneTooEarly`).
- The comparison of the heap is an order only for distances that are equal or at least 1e-10 apart
  (`DistanceHeap.TopCanBeLess`, `DistanceHeap.ComparisonIsOrder`). The points found are the nearest ones except among
  distances that no gap of that size separates (`NearestSearch.Nearest`, `NearestSearch.NearestUpToTolerance`).
- The motion compensation is meant to be applied once to a point. The first point of a scan gets it once more for every
  further pose before it (`Undistort.FirstPointTwiceExample`, `Undistort.AllAtMostOnceIff`).
- The retry node is meant to fail only when a child does. If the number of attempts is lowered between two ticks, it can
  return FAILURE without asking a child, or after the recovery succeeded (`RecoveryNodes.LoweredAttemptsExample`,
  `RecoveryNodes.FallsThroughIff`, `RecoveryNodes.CannotFallThroughIff`).
- The mapping mission cancels its goals when its time is up. The result of a cancelled goal still sends the next one
  (`MissionManagers.GoalAfterDeadlineExample`), and a retry armed before then still sends its goal, even after the
  mission is finished (`MissionManagers.GoalAfterFinishExample`). No more goals are sent exactly when neither can
  happen (`MissionManagers.SendsAfterDeadlineIff`).

Code and comment differ in one place: the comment on the memory pool says that resizing only allocates new memory
(`allocators.h:106`), while the code also makes the last block longer in place. The model follows the code.

## Model

| member | source | states |
|---|---|---|
| `Crc16.TableIsEightShifts` | src/rm_serial_driver/src/crc.cpp:9-31 | each of the 256 entries is its index after eight shifts of the register with the reflected polynomial 0x8408 |
| `Crc16.UpdateIsLfsr` | src/rm_serial_driver/src/crc.cpp:47-48 | one table step is the same as feeding the eight bits of the byte, lowest first, to the bit-serial register |
| `Crc16.ChecksumIsLfsr` | src/rm_serial_driver/src/crc.cpp:45-49 | for every message and every starting value, the table-driven checksum is the bit-serial one |
| `ShiftRegister.LfsrIsInjective` | src/rm_serial_driver/src/crc.cpp:45-49 | the register loses nothing: two registers that end equal after the same bits started equal |
| `ShiftRegister.ShortStringsAreSeparated` | src/rm_serial_driver/src/crc.cpp:45-49 | from one register, two different strings of at most sixteen bits lead to different registers |
| `ShiftRegister.OwnBitsDrain` | src/rm_serial_driver/src/crc.cpp:67-69 | feeding a register its own low bits shifts it out without a feedback |
| `ShiftRegister.LfsrParity` | src/rm_serial_driver/src/crc.cpp:45-49 | the parity of the register follows the parity of the bits fed, since the polynomial has the factor x + 1 |
| `Crc16.TrailerDrains` | src/rm_serial_driver/src/crc.cpp:67-69 | two bytes bring the checksum to zero if and only if they are its low and its high byte |
| `Crc16.AcceptsIffZeroResidue` | src/rm_serial_driver/src/crc.cpp:60-70 | the receiver accepts if and only if there are more than two bytes and the checksum from 0xFFFF over all of them, trailer included, is 0 |
| `Crc16.CheckValue` | src/rm_serial_driver/src/crc.cpp:5-70 | the nine ASCII digits from 1 to 9 have the checksum 0x6F91, and are accepted with the bytes 0x91, 0x6F behind them |
| `Crc16.BurstIsDetected` | src/rm_serial_driver/src/crc.cpp:60-70 | of two different messages of one length that differ only within sixteen consecutive bits, at most one is accepted |
| `Crc16.OddErrorsAreDetected` | src/rm_serial_driver/src/crc.cpp:60-70 | of two messages of one length that differ in an odd number of bits, at most one is accepted |
| `Crc16.GetCheckSum` | src/rm_serial_driver/src/crc.cpp:40-52 | the loop computes the bit-serial register over the first bytes of the buffer; 0xFFFF for a null pointer |
| `Crc16.VerifyCheckSum` | src/rm_serial_driver/src/crc.cpp:60-70 | the comparison of two bytes is the test for a zero register over the whole buffer, from 0xFFFF; false for null or at most two bytes |
| `Crc16.AppendCheckSum` | src/rm_serial_driver/src/crc.cpp:78-88 | afterwards the last two bytes are the checksum from 0xFFFF of the others, low byte first, and the receiver accepts; nothing else changes; null and short buffers are left alone |
| `LidarFusion.SortIsSortedPermutation` | src/pb2025_sentry_nav/FAST_LIO/src/laserMapping.cpp:961-967 | the fused cloud holds the points of both clouds, each once, in the order of their time offset |
| `LidarFusion.ApplyTakesAxes` | src/pb2025_sentry_nav/FAST_LIO/src/laserMapping.cpp:941-956 | the transform takes the origin to the place of the left lidar, and the unit points from there along the columns of the matrix |
| `LidarFusion.ApplyIsAffine` | src/pb2025_sentry_nav/FAST_LIO/src/laserMapping.cpp:941-956 | the transform takes lines to lines in proportion, so that the images of the axes fix it |
| `LidarFusion.SortIsMerged` | src/pb2025_sentry_nav/FAST_LIO/src/laserMapping.cpp:946-967 | the merged cloud holds the right points and one point for each left one, where the right lidar sees it and later by the difference of the stamps, in the order of the time offsets |
| `LidarFusion.FusedScanKeepsTimes` | src/pb2025_sentry_nav/FAST_LIO/src/laserMapping.cpp:946-970 | the fused scan holds the points of the right cloud and the moved points of the left one, each as often as there; every left point is where the right lidar sees it, from the origin of the left one along its axes; under the right stamp every point keeps the time at which it was measured |
| `LidarFusion.DrainAfterSkip` | src/pb2025_sentry_nav/FAST_LIO/src/laserMapping.cpp:921-989 | frames dropped by a call would not have been paired by any continuation of the two streams |
| `LidarFusion.DrainIsMatching` | src/pb2025_sentry_nav/FAST_LIO/src/laserMapping.cpp:914-992 | the pairs fused are disjoint pairs of frames less than 5 ms apart: no frame is fused twice |
| `LidarFusion.NoMatchingIsLarger` | src/pb2025_sentry_nav/FAST_LIO/src/laserMapping.cpp:914-992 | unless a harmful tie is met, no set of disjoint pairs less than 5 ms apart is larger than what is fused |
| `LidarFusion.TieCostsAPair` | src/pb2025_sentry_nav/FAST_LIO/src/laserMapping.cpp:979-988 | after a harmful tie, fewer pairs are fused on some prefix of the left stream than are possible |
| `LidarFusion.FusesMostIffNoHarmfulTie` | src/pb2025_sentry_nav/FAST_LIO/src/laserMapping.cpp:914-992 | on ordered streams, the pairs fused are as many as possible at every length of the left stream if and only if no left frame is dropped that is exactly 5 ms later than the right head and close to a later right frame |
| `LidarFusion.OptimalWithoutTies` | src/pb2025_sentry_nav/FAST_LIO/src/laserMapping.cpp:914-992 | with no two stamps exactly 5 ms apart, as many pairs are fused as any disjoint pairing can contain |
| `LidarFusion.TieExample` | src/pb2025_sentry_nav/FAST_LIO/src/laserMapping.cpp:979-988 | three stamps on which the tie loses the only pair |
| `LidarFusion.LateIsOptimal` | src/pb2025_sentry_nav/FAST_LIO/src/laserMapping.cpp:979-988 | with the right head dropped at exactly 5 ms too, no disjoint pairing of ordered streams is larger, ties or not |
| `LidarFusion.LateIsMatching` | src/pb2025_sentry_nav/FAST_LIO/src/laserMapping.cpp:979-988 | what is fused then is itself such a pairing |
| `LidarFusion.FusesMostIffAsManyAsLate` | src/pb2025_sentry_nav/FAST_LIO/src/laserMapping.cpp:914-992 | on the ordered streams as they are given, the pairs fused are as many as possible if and only if they are as many as with the tie broken the other way; they are never more |
| `LidarFusion.TieMadeUpForExample` | src/pb2025_sentry_nav/FAST_LIO/src/laserMapping.cpp:979-988 | a tie after which a later left frame makes up for the pair lost |
| `LidarFusion.OneMoreRight` | src/pb2025_sentry_nav/FAST_LIO/src/laserMapping.cpp:914-992 | one right frame more at the head is worth one pair, or none if the frames after it pair off one by one until a right frame is left over |
| `LidarFusion.EachCostlyTieCostsAPair` | src/pb2025_sentry_nav/FAST_LIO/src/laserMapping.cpp:914-992 | on ordered streams, the pairs fused fall short of the most possible by exactly one for each tie after which a right frame is left over |
| `LidarFusion.FusesMostIffNoCostlyTie` | src/pb2025_sentry_nav/FAST_LIO/src/laserMapping.cpp:914-992 | on the ordered streams as they are given, the pairs fused are as many as possible if and only if there is no such tie |
| `ImuSync.BatchSplits` | src/pb2025_sentry_nav/FAST_LIO/src/laserMapping.cpp:1142-1151 | the batch loop takes only samples up to the end time and leaves only samples from the end time on |
| `ImuSync.BatchEnds` | src/pb2025_sentry_nav/FAST_LIO/src/laserMapping.cpp:1142-1151 | the batch is exactly the samples before the end time and the first one at it, or nothing if there is none before it |
| `ImuSync.BufferIsDivided` | src/pb2025_sentry_nav/FAST_LIO/src/laserMapping.cpp:1142-1151 | batch and rest make up the buffer, divided at the end time, and the rest is still in order |
| `ImuSync.ScanTimeIsExact` | src/pb2025_sentry_nav/FAST_LIO/src/laserMapping.cpp:1115-1129 | a scan that is long enough ends with its last point, and the mean scan time stays the exact mean of such scans; any other is taken to last as long as the mean |
| `ImuSync.DeliveredPackage` | src/pb2025_sentry_nav/FAST_LIO/src/laserMapping.cpp:1103-1157 | a package is delivered if and only if a scan and a sample wait and the newest sample is not before the end of the scan; it carries the front scan with a prefix of the IMU buffer divided at that end; otherwise both queues are as before |
| `ImuSync.DeliversFrontIff` | src/pb2025_sentry_nav/FAST_LIO/src/laserMapping.cpp:1111-1156 | in any state, the scan delivered is the one that leaves the queue if and only if none was taken up before or the one taken up is still the front one |
| `StaleScan.RunKeepsFront` | src/pb2025_sentry_nav/FAST_LIO/src/laserMapping.cpp:828-1157 | in every run, whatever the stamps: the queue holds the scans fused last; a scan taken up is the front one, unless a lidar went back since, and then the queue holds what was fused since |
| `StaleScan.StaleByLoopBack` | src/pb2025_sentry_nav/FAST_LIO/src/laserMapping.cpp:828-912 | a scan taken up becomes stale only by a lidar that goes back while it is taken up |
| `StaleScan.RunDelivers` | src/pb2025_sentry_nav/FAST_LIO/src/laserMapping.cpp:1103-1157 | in every run, by its place among the scans fused, the scan delivered is the front one if and only if none is stale; otherwise it is the stale one, and the first one fused since the queue was emptied leaves the queue in its place |
| `StaleScan.StaleScanExample` | src/pb2025_sentry_nav/FAST_LIO/src/laserMapping.cpp:838-847 | a run in which both lidars go back in time while a scan is taken up: that scan is delivered although the queue was emptied, and the scan fused since is dropped |
| `ImuPredict.ReplayOneMore` | src/pb2025_sentry_nav/FAST_LIO/src/laserMapping.cpp:1583-1612 | replaying one more sample is one integration step from the last sample to it, over the time between them, on top of the replay, unless that time is at most a microsecond |
| `ImuPredict.ReplayOne` | src/pb2025_sentry_nav/FAST_LIO/src/laserMapping.cpp:1583-1612 | replaying nothing leaves the state, and replaying one sample is one step from the start time to it, with the sample itself if there is none before it |
| `ImuPredict.LastSteppedIs` | src/pb2025_sentry_nav/FAST_LIO/src/laserMapping.cpp:1583-1612 | the stamp kept is that of the last sample to which there is a proper step, or the end of the scan |
| `ImuPredict.ReceiveKeepsCache` | src/pb2025_sentry_nav/FAST_LIO/src/laserMapping.cpp:1027-1054 | an IMU sample with a non-negative stamp keeps the cached state equal to the replay of the buffer |
| `ImuPredict.ReceiveRestarts` | src/pb2025_sentry_nav/FAST_LIO/src/laserMapping.cpp:1034-1054 | if the time of the prediction is not set, a sample makes it start again from the optimised state |
| `ImuPredict.EmptyBufferLosesAStep` | src/pb2025_sentry_nav/FAST_LIO/src/laserMapping.cpp:1043-1046 | with an empty buffer the cache stays equal to the replay if and only if the step would not have changed the state |
| `ImuPredict.DropBeforeKeepsLast` | src/pb2025_sentry_nav/FAST_LIO/src/laserMapping.cpp:1575-1578 | dropping old samples keeps the newest one if that is not before the end of the scan |
| `ImuPredict.DropBeforeSplits` | src/pb2025_sentry_nav/FAST_LIO/src/laserMapping.cpp:1575-1578 | of a buffer in order, exactly the samples before the time are dropped |
| `ImuPredict.ResetKeepsCache` | src/pb2025_sentry_nav/FAST_LIO/src/laserMapping.cpp:1568-1612 | a lidar update re-establishes a non-empty buffer and a cache equal to its replay |
| `PredictionRun.RunStartsAt` | src/pb2025_sentry_nav/FAST_LIO/src/laserMapping.cpp:1568-1573 | in every run, the prediction starts from the state and the end time of the latest update that came with a package; before the first one it stands still at the initial state |
| `PredictionRun.PredictionBufferIs` | src/pb2025_sentry_nav/FAST_LIO/src/laserMapping.cpp:1027-1054 | in every run in which the IMU does not go back, the samples that the prediction goes through are, of all samples received, those that are not before the end of the scan of any update |
| `MappingRun.RunStaysOnTrack` | src/pb2025_sentry_nav/FAST_LIO/src/laserMapping.cpp:828-992 | in every run, what was fused and what the buffers will still yield is what the fuser yields on the complete streams, for every continuation |
| `MappingRun.FusionIsScheduleIndependent` | src/pb2025_sentry_nav/FAST_LIO/src/laserMapping.cpp:828-992 | for every interleaving of frames, samples, timer calls and missing transforms, the fused pairs are a prefix of one function of the two streams |
| `MappingRun.SchedulesAgree` | src/pb2025_sentry_nav/FAST_LIO/src/laserMapping.cpp:828-992 | two schedules of the same frames fuse the same pairs, as far as both have come |
| `MappingRun.IdleTimerHasFusedAll` | src/pb2025_sentry_nav/FAST_LIO/src/laserMapping.cpp:914-992 | if a timer call with the transform at hand fuses nothing, everything that the streams yield has been fused |
| `MappingRun.IdleRunHasFusedMost` | src/pb2025_sentry_nav/FAST_LIO/src/laserMapping.cpp:828-992 | then, with no two stamps exactly 5 ms apart, no disjoint pairing of the frames received is larger than what the run has fused |
| `MappingRun.IdleRunHasFusedMostIff` | src/pb2025_sentry_nav/FAST_LIO/src/laserMapping.cpp:828-992 | then, on any ordered streams, a largest disjoint pairing has exactly one pair more for each costly tie, so the run has fused as many as possible if and only if there is none |
| `MappingRun.FrameArrives` | src/pb2025_sentry_nav/FAST_LIO/src/laserMapping.cpp:828-912 | in every run, a frame older than the last one of its side leaves only itself in the buffer of that side and no fused scan; any other joins its buffer; the other side, the samples and the prediction stay as they are |
| `MappingRun.SampleArrives` | src/pb2025_sentry_nav/FAST_LIO/src/laserMapping.cpp:994-1054 | in every run, a sample older than the newest one leaves only itself in the IMU buffer, any other joins it, and the prediction buffer gains it in any case |
| `MappingDelivery.RunIsPartitioned` | src/pb2025_sentry_nav/FAST_LIO/src/laserMapping.cpp:994-1157 | every run with ordered stamps keeps the invariant behind the partition of the IMU stream |
| `MappingDelivery.ImuStreamIsPartitioned` | src/pb2025_sentry_nav/FAST_LIO/src/laserMapping.cpp:994-1157 | batches and buffer are the samples received; no batch is late, no sample is missed or will be; end times cover the scans; the fused scans are delivered once each, in order |
| `MappingDelivery.RunIsCached` | src/pb2025_sentry_nav/FAST_LIO/src/laserMapping.cpp:1027-1054 | every run with non-negative stamps keeps the invariant behind the prediction cache |
| `MappingDelivery.CacheEqualsReplay` | src/pb2025_sentry_nav/FAST_LIO/src/laserMapping.cpp:1568-1612 | once a lidar update was made, the prediction buffer is not empty and the cached state is the replay of it, in every run with non-negative stamps |
| `LaserMapping.ScanQueue.OnImu` | src/pb2025_sentry_nav/FAST_LIO/src/laserMapping.cpp:1010-1022 | the sample is appended; one that goes back in time empties the buffer first |
| `LaserMapping.ScanQueue.TakeUpScan` | src/pb2025_sentry_nav/FAST_LIO/src/laserMapping.cpp:1111-1134 | the front scan is taken up once and its end time and the mean scan time are set as the specification says |
| `LaserMapping.ScanQueue.TakeBatch` | src/pb2025_sentry_nav/FAST_LIO/src/laserMapping.cpp:1142-1151 | the loop moves exactly the specified batch from the front of the buffer |
| `LaserMapping.ScanQueue.SyncPackages` | src/pb2025_sentry_nav/FAST_LIO/src/laserMapping.cpp:1103-1157 | new state and package are those of the specification that the partition is proved about |
| `LaserMapping.DualLidar.OnRightCloud` | src/pb2025_sentry_nav/FAST_LIO/src/laserMapping.cpp:828-875 | cloud and stamp are appended in lockstep; a loop-back empties the right buffers and the fused ones |
| `LaserMapping.DualLidar.OnLeftCloud` | src/pb2025_sentry_nav/FAST_LIO/src/laserMapping.cpp:877-912 | cloud and stamp are appended in lockstep; a loop-back empties the left buffers and the fused ones |
| `LaserMapping.DualLidar.MergeClouds` | src/pb2025_sentry_nav/FAST_LIO/src/laserMapping.cpp:946-967 | the loop moves every left point to where the right lidar sees it, and its time offset; the clouds are joined and sorted |
| `LaserMapping.DualLidar.FuseDualLidarFrameOnce` | src/pb2025_sentry_nav/FAST_LIO/src/laserMapping.cpp:914-992 | the heads that cannot be paired are dropped; a pair is fused if and only if one is left and the transform is known, and queued under the right stamp |
| `LaserMapping.Prediction.OnImu` | src/pb2025_sentry_nav/FAST_LIO/src/laserMapping.cpp:1027-1054 | the cached state moves on as the specification says |
| `LaserMapping.Prediction.DropOld` | src/pb2025_sentry_nav/FAST_LIO/src/laserMapping.cpp:1575-1578 | the loop drops the samples before the time from the front |
| `LaserMapping.Prediction.Reintegrate` | src/pb2025_sentry_nav/FAST_LIO/src/laserMapping.cpp:1580-1612 | the loop leaves the replay of the whole buffer and the stamp of the last step taken |
| `LaserMapping.Prediction.Reset` | src/pb2025_sentry_nav/FAST_LIO/src/laserMapping.cpp:1568-1612 | the optimised state, its time and the flag are those of the update, and the prediction is the reset one of the specification |
| `LaserMapping.Mapper.RunResults` | src/pb2025_sentry_nav/FAST_LIO/src/laserMapping.cpp:828-1157 | of the node as it stands after any events: the prediction starts from the latest update, goes through the samples since the ends of the scans of all updates, and is the replay of a non-empty buffer once an update was made; the batches delivered and the IMU buffer are the samples received, none late or missed; the fused scans are delivered or queued in order; the pairs are those that the streams yield |
| `LaserMapping.Mapper.OnRightCloud` | src/pb2025_sentry_nav/FAST_LIO/src/laserMapping.cpp:828-875 | a right frame takes the node one event further in its run, and what whole runs keep holds of the buffers |
| `LaserMapping.Mapper.OnLeftCloud` | src/pb2025_sentry_nav/FAST_LIO/src/laserMapping.cpp:877-912 | a left frame takes the node one event further in its run, and what whole runs keep holds of the buffers |
| `LaserMapping.Mapper.OnImu` | src/pb2025_sentry_nav/FAST_LIO/src/laserMapping.cpp:994-1054 | an IMU sample takes the node one event further in its run, and what whole runs keep holds of the buffers |
| `LaserMapping.Mapper.OnTimer` | src/pb2025_sentry_nav/FAST_LIO/src/laserMapping.cpp:1434-1439 | a timer call takes the node one event further in its run and returns its package; an update with a package becomes the optimised state, at the end of the scan; and what whole runs keep holds of the buffers |
| `TerrainErosion.DistanceBounds` | src/terrain_analysis/src/terrainAnalysis.cpp:584-608 | the cut-off distance is at most d if and only if there is data within d, below the cut-off |
| `TerrainErosion.StepTowardsData` | src/terrain_analysis/src/terrainAnalysis.cpp:591-603 | a cell with data at distance d + 1 has a neighbour with data at distance d |
| `TerrainErosion.RelaxedKeeps` | src/terrain_analysis/src/terrainAnalysis.cpp:587-606 | handling one cell in place raises its cut-off by one and disturbs no other cell, whatever was handled before it |
| `TerrainErosion.AnySweepOrder` | src/terrain_analysis/src/terrainAnalysis.cpp:586-607 | one in-place sweep in any order raises the cut-off of all distances by one |
| `TerrainErosion.HasLowerNeighbour` | src/terrain_analysis/src/terrainAnalysis.cpp:588-603 | the two loops find whether a cell of the 3 by 3 neighbourhood holds less |
| `TerrainErosion.Sweep` | src/terrain_analysis/src/terrainAnalysis.cpp:586-607 | the sweep in the order of the code raises the cut-off of the Chebyshev distance to data by one |
| `TerrainErosion.MarkEmpty` | src/terrain_analysis/src/terrainAnalysis.cpp:577-582 | cells with fewer points than the minimum hold 1 and the others 0: the distance cut off at 1 |
| `TerrainErosion.Collect` | src/terrain_analysis/src/terrainAnalysis.cpp:610-633 | the cells above the threshold are, in order, those without data within the threshold |
| `TerrainErosion.NoDataObstacles` | src/terrain_analysis/src/terrainAnalysis.cpp:576-634 | after all sweeps each cell holds its Chebyshev distance to the nearest data, cut off; obstacles are exactly the cells with no cell of at least the minimum of points within the number of sweeps on both axes of the 51 by 51 grid |
| `TerrainConnectivity.Visit` | src/terrain_analysis_ext/src/terrainAnalysisExt.cpp:472-475 | taking the front cell off the queue and marking it 2 keeps the invariant of the fill |
| `TerrainConnectivity.Look` | src/terrain_analysis_ext/src/terrainAnalysisExt.cpp:483-495 | what the code does to one cell of the window keeps the invariant: the first visited cell that judges it decides |
| `TerrainConnectivity.Fill.LookAt` | src/terrain_analysis_ext/src/terrainAnalysisExt.cpp:484-495 | the marks and the queue change as the judgement says, and a cell that joins the queue was open |
| `TerrainConnectivity.Fill.ScanWindow` | src/terrain_analysis_ext/src/terrainAnalysisExt.cpp:479-498 | every cell of the 21 by 21 window on the grid is looked at once |
| `TerrainConnectivity.Fill.Spread` | src/terrain_analysis_ext/src/terrainAnalysisExt.cpp:472-499 | the loop terminates with an empty queue and every cell queued at most once |
| `TerrainConnectivity.Fill.FloodFill` | src/terrain_analysis_ext/src/terrainAnalysisExt.cpp:463-500 | the fill from the cell under the vehicle, with the ground level put in if that cell has no points; a cell is marked connected or excluded only from a connected cell in its window, less than the one threshold or more than the other above or below it, and no connected cell would do either to a cell left open; the cells are visited in the visiting order of the terrain |
| `TerrainConnectivity.ExcludedHasWitness` | src/terrain_analysis_ext/src/terrainAnalysisExt.cpp:490-494 | each cell marked -1 has a connected cell in its 21 by 21 window that it is more than the ceiling threshold above or below |
| `TerrainConnectivity.OpenCellIsBetween` | src/terrain_analysis_ext/src/terrainAnalysisExt.cpp:486-494 | a populated cell left at 0 is, from each connected cell of its window, neither less than the connection threshold up or down nor more than the ceiling threshold |
| `TerrainConnectivity.JudgeMeans` | src/terrain_analysis_ext/src/terrainAnalysisExt.cpp:479-495 | one cell connects another if that is populated, in the window of 21 by 21 cells and less than the connection threshold above or below it; it excludes it if that is more than the ceiling threshold above or below |
| `TerrainConnectivity.FilledMeans` | src/terrain_analysis_ext/src/terrainAnalysisExt.cpp:463-500 | what the marks left behind say about the elevations, cell by cell |
| `TerrainConnectivity.ChainSteps` | src/terrain_analysis_ext/src/terrainAnalysisExt.cpp:486-489 | each step of a chain is to a populated cell in the window, less than the connection threshold up or down |
| `TerrainConnectivity.QueuedIsReached` | src/terrain_analysis_ext/src/terrainAnalysisExt.cpp:472-499 | each cell marked 2 is joined to the centre by a chain of connected cells with small steps |
| `TerrainConnectivity.ConnectedIffReached` | src/terrain_analysis_ext/src/terrainAnalysisExt.cpp:463-500 | a cell is marked 2 if and only if it can be reached from the centre by small steps without entering a cell marked -1 |
| `TerrainConnectivity.FindsAllIffNothingCutOff` | src/terrain_analysis_ext/src/terrainAnalysisExt.cpp:463-500 | by the marks left behind: what is found is what is reachable if and only if no cell marked -1 is a small step from a connected cell |
| `TerrainConnectivity.LookInTurn` | src/terrain_analysis_ext/src/terrainAnalysisExt.cpp:479-498 | the cells of the window are queued in ascending order, so the queue is a function of the terrain |
| `TerrainConnectivity.EmptyQueueIsVisitOrder` | src/terrain_analysis_ext/src/terrainAnalysisExt.cpp:472-499 | when the queue is empty, the cells visited are the whole visiting order of the terrain |
| `TerrainConnectivity.FindsAllIffNoneTooEarly` | src/terrain_analysis_ext/src/terrainAnalysisExt.cpp:463-500 | by the terrain: the fill finds what is reachable if and only if, in its visiting order, no cell is excluded by a cell visited before one a small step away |
| `TerrainConnectivity.FindsAllWithoutCeilings` | src/terrain_analysis_ext/src/terrainAnalysisExt.cpp:463-500 | without the order: if no reachable cell is across a large gap from a reachable cell of its window, the fill finds what is reachable |
| `TerrainConnectivity.RampExample` | src/terrain_analysis_ext/src/terrainAnalysisExt.cpp:486-494 | a ramp of seven cells whose last one is reachable and is excluded in whatever order the cells are visited |
| `TerrainConnectivity.DropExample` | src/terrain_analysis_ext/src/terrainAnalysisExt.cpp:486-494 | a terrain 3 below its centre: exactly the window of the centre is excluded, and nothing is connected |
| `RollingWindow.MovedIsPermutation` | src/terrain_analysis/src/terrainAnalysis.cpp:284-343 | rotating all lines leaves the same distinct clouds, each in the place that the shift says |
| `RollingWindow.ShiftFollows` | src/terrain_analysis/src/terrainAnalysis.cpp:284-343 | one shift shows the old contents where the windows overlap and nothing on the line that enters |
| `RollingWindow.FollowsMeans` | src/terrain_analysis/src/terrainAnalysis.cpp:284-343 | in the 21 by 21 arrays: a voxel shows what the voxel as many places further did before the centre moved, or nothing |
| `RollingWindow.RotateUp` | src/terrain_analysis/src/terrainAnalysis.cpp:301-307 | the loop rotates one line by one place towards its start, pointer by pointer |
| `RollingWindow.RotateDown` | src/terrain_analysis/src/terrainAnalysis.cpp:286-292 | the loop rotates one line by one place towards its end, pointer by pointer |
| `RollingWindow.Window.constructor` | src/terrain_analysis/src/terrainAnalysis.cpp:267-269 | the window starts with distinct empty clouds |
| `RollingWindow.Window.RotateLines` | src/terrain_analysis/src/terrainAnalysis.cpp:285-294 | all lines are rotated, and exactly the clouds that enter are cleared |
| `RollingWindow.Window.Shift` | src/terrain_analysis/src/terrainAnalysis.cpp:284-297 | the contents are the shifted ones, on the same clouds, and the shift counter has moved by one |
| `RollingWindow.Window.FollowAxis` | src/terrain_analysis/src/terrainAnalysis.cpp:284-312 | the two loops of one axis terminate with the vehicle within one voxel of the centre |
| `RollingWindow.Window.RollOver` | src/terrain_analysis/src/terrainAnalysis.cpp:280-343 | all four loops: the same clouds, old contents kept where the windows overlap and empty elsewhere, the vehicle within one voxel of the centre on both axes |
| `Pursuit.CrossingIsProper` | src/pb2025_sentry_nav/pb_omni_pid_pursuit_controller/src/omni_pid_pursuit_controller.cpp:406-423 | if one end is inside the circle and the other is not, the ends differ and the discriminant is not negative |
| `Pursuit.IntersectionIsOnBoth` | src/pb2025_sentry_nav/pb_omni_pid_pursuit_controller/src/omni_pid_pursuit_controller.cpp:394-425 | the point computed has exactly the radius as its norm and lies on the segment |
| `Pursuit.IntersectionIsUnique` | src/pb2025_sentry_nav/pb_omni_pid_pursuit_controller/src/omni_pid_pursuit_controller.cpp:394-425 | it is the only point of the segment at that distance |
| `Pursuit.BoundaryCrosses` | src/pb2025_sentry_nav/pb_omni_pid_pursuit_controller/src/omni_pid_pursuit_controller.cpp:367-380 | whenever the code interpolates, the previous pose is inside the circle, the pose found is not, and the division is defined |
| `Pursuit.LookAheadIsExact` | src/pb2025_sentry_nav/pb_omni_pid_pursuit_controller/src/omni_pid_pursuit_controller.cpp:363-392 | if the path starts nearer than the look-ahead distance and does not stay nearer, the interpolated point is at exactly that distance, on the segment that first leaves the circle and past its start, with the stamp of its end |
| `Pursuit.NoPoseIsFar` | src/pb2025_sentry_nav/pb_omni_pid_pursuit_controller/src/omni_pid_pursuit_controller.cpp:372-374 | if all poses are nearer than the look-ahead distance, the last one is returned |
| `Pursuit.FirstFarIsTaken` | src/pb2025_sentry_nav/pb_omni_pid_pursuit_controller/src/omni_pid_pursuit_controller.cpp:367-391 | without interpolation, or if it is the first of the path, the first pose that is not nearer is returned |
| `Pursuit.CalculateCumulativeDistances` | src/pb2025_sentry_nav/pb_omni_pid_pursuit_controller/src/omni_pid_pursuit_controller.cpp:634-647 | the first length is zero and each other one is longer by the distance between two poses; one zero for an empty path |
| `Pursuit.LengthsAreSorted` | src/pb2025_sentry_nav/pb_omni_pid_pursuit_controller/src/omni_pid_pursuit_controller.cpp:634-647 | the cumulative lengths are non-negative and in order, as the binary search needs |
| `Pursuit.ArcLengthIsExact` | src/pb2025_sentry_nav/pb_omni_pid_pursuit_controller/src/omni_pid_pursuit_controller.cpp:649-684 | between the ends, the pose found is on a segment of the path, the way along the path to it is exactly the target, and the rest of the segment is what remains; stamp and orientation are those of the next pose |
| `Pursuit.ArcLengthIsClamped` | src/pb2025_sentry_nav/pb_omni_pid_pursuit_controller/src/omni_pid_pursuit_controller.cpp:653-661 | outside that range the first or the last pose is returned; without a path, the default one |
| `PoolAllocator.InPlaceIsLast` | src/pb2025_sentry_nav/livox_ros_driver2/3rdparty/rapidjson/allocators.h:236-239 | if the address test succeeds, the block is the last of the head chunk and the size passed is its whole length, wherever other chunks lie |
| `PoolAllocator.Align` | src/pb2025_sentry_nav/livox_ros_driver2/3rdparty/rapidjson/rapidjson.h:291-293 | the least multiple of 8 that is not less |
| `PoolAllocator.TakeIsSound` | src/pb2025_sentry_nav/livox_ros_driver2/3rdparty/rapidjson/allocators.h:216-219 | cutting a block off the head chunk keeps the pool sound |
| `PoolAllocator.AddChunkIsSound` | src/pb2025_sentry_nav/livox_ros_driver2/3rdparty/rapidjson/allocators.h:268-281 | a new chunk on room that overlaps no other keeps the pool sound |
| `PoolAllocator.GrowIsSound` | src/pb2025_sentry_nav/livox_ros_driver2/3rdparty/rapidjson/allocators.h:240-244 | growing in place overlaps no other block and keeps the pool sound |
| `PoolAllocator.MallocIsSafe` | src/pb2025_sentry_nav/livox_ros_driver2/3rdparty/rapidjson/allocators.h:208-220 | a block of its own, of the least multiple of 8 that is enough, at the top of the head chunk if that has room and otherwise in a new chunk; on chunks at multiples of 8 the pointer is one; null if and only if nothing was asked or no chunk could be had, and then nothing changes |
| `PoolAllocator.MoveIsSafe` | src/pb2025_sentry_nav/livox_ros_driver2/3rdparty/rapidjson/allocators.h:247-250 | the copy goes to a block that overlaps no other, source included, and carries the bytes over |
| `PoolAllocator.IndexOfBlock` | src/pb2025_sentry_nav/livox_ros_driver2/3rdparty/rapidjson/allocators.h:223-253 | a pointer that was handed out tells its block from all others |
| `PoolAllocator.ReallocIsSafe` | src/pb2025_sentry_nav/livox_ros_driver2/3rdparty/rapidjson/allocators.h:223-253 | for any block and any size up to its length: the result is long enough and starts with the same bytes, every block keeps its place, length and bytes, and no other block is changed; the block stays if it is long enough or last with room behind it; on chunks at multiples of 8 the pointer is one; on failure nothing changes |
| `PoolAllocator.RunIsSound` | src/pb2025_sentry_nav/livox_ros_driver2/3rdparty/rapidjson/allocators.h:178-281 | over every run of calls: chunks apart and not overfull, each block in the used part of one chunk, lengths and distances from the start of the chunk multiples of 8, blocks pairwise disjoint, used bytes equal to the sum of the blocks |
| `PoolAllocator.RunKeepsBytes` | src/pb2025_sentry_nav/livox_ros_driver2/3rdparty/rapidjson/allocators.h:178-281 | over every run, a byte of a block stays what the client stored until the client stores there again or clears the pool |
| `PoolAllocator.RunKeepsStored` | src/pb2025_sentry_nav/livox_ros_driver2/3rdparty/rapidjson/allocators.h:178-281 | over every run, a byte holds the value that the client stored in it until the client stores there again or clears the pool |
| `PoolAllocator.RunIsAligned` | src/pb2025_sentry_nav/livox_ros_driver2/3rdparty/rapidjson/allocators.h:178-281 | over every run on chunks at multiples of 8, all blocks are at multiples of 8 and as long |
| `PoolAllocator.BlockIsPlaced` | src/pb2025_sentry_nav/livox_ros_driver2/3rdparty/rapidjson/allocators.h:208-220 | every block lies behind the header of its chunk and within its capacity |
| `PoolAllocator.ClearIsSound` | src/pb2025_sentry_nav/livox_ros_driver2/3rdparty/rapidjson/allocators.h:178-186 | clearing leaves no block and no chunk but the user buffer, which is empty, and touches no byte |
| `Allocators.MemoryPoolAllocator.constructor` | src/pb2025_sentry_nav/livox_ros_driver2/3rdparty/rapidjson/allocators.h:133-139 | no chunk yet |
| `Allocators.MemoryPoolAllocator.WithBuffer` | src/pb2025_sentry_nav/livox_ros_driver2/3rdparty/rapidjson/allocators.h:153-167 | the user buffer is the first chunk, less its header |
| `Allocators.MemoryPoolAllocator.Capacity` | src/pb2025_sentry_nav/livox_ros_driver2/3rdparty/rapidjson/allocators.h:191-196 | the walk over the list sums the capacities of all chunks |
| `Allocators.MemoryPoolAllocator.Size` | src/pb2025_sentry_nav/livox_ros_driver2/3rdparty/rapidjson/allocators.h:201-205 | the walk over the list gives the total length of all blocks handed out |
| `Allocators.MemoryPoolAllocator.AddChunk` | src/pb2025_sentry_nav/livox_ros_driver2/3rdparty/rapidjson/allocators.h:268-281 | the chunk is put in front of the list, or nothing changes |
| `Allocators.MemoryPoolAllocator.Malloc` | src/pb2025_sentry_nav/livox_ros_driver2/3rdparty/rapidjson/allocators.h:208-220 | pointer and new list are those of the pool that the safety results are about |
| `Allocators.MemoryPoolAllocator.Realloc` | src/pb2025_sentry_nav/livox_ros_driver2/3rdparty/rapidjson/allocators.h:223-253 | pointer, new list and memory are those of the pool that the safety results are about |
| `Allocators.MemoryPoolAllocator.Clear` | src/pb2025_sentry_nav/livox_ros_driver2/3rdparty/rapidjson/allocators.h:178-186 | the chunks are given back newest first, each once and never the user buffer, which is emptied |
| `DistanceHeap.ComparisonCanCycle` | src/pb2025_sentry_nav/FAST_LIO/include/ikd-Tree/ikd_Tree.h:102-108 | three items on which the comparison goes round in a circle |
| `DistanceHeap.TopCanBeLess` | src/pb2025_sentry_nav/FAST_LIO/include/ikd-Tree/ikd_Tree.h:102-197 | four items which, pushed one after the other, make a heap whose first item is less than another |
| `DistanceHeap.ComparisonIsOrder` | src/pb2025_sentry_nav/FAST_LIO/include/ikd-Tree/ikd_Tree.h:102-108 | for two distances the comparison is the order by distance and then by x for all points if and only if they are equal or at least 1e-10 apart; closer than that, it compares only x |
| `DistanceHeap.ComparisonFollows` | src/pb2025_sentry_nav/FAST_LIO/include/ikd-Tree/ikd_Tree.h:102-108 | on items with a gap in their distances, whatever these are otherwise, the comparison never puts an item beyond the gap below one before it; if all are told apart, it is the order by distance and x |
| `DistanceHeap.RootIsMaximum` | src/pb2025_sentry_nav/FAST_LIO/include/ikd-Tree/ikd_Tree.h:136-139 | in a heap in order, be it by distance or only across a gap, nothing is above the first item |
| `DistanceHeap.RisenIsHeap` | src/pb2025_sentry_nav/FAST_LIO/include/ikd-Tree/ikd_Tree.h:181-197 | rising rearranges the items and restores every order that the comparison follows on them |
| `DistanceHeap.SunkIsHeap` | src/pb2025_sentry_nav/FAST_LIO/include/ikd-Tree/ikd_Tree.h:161-180 | sinking rearranges the items and restores every order that the comparison follows on them |
| `DistanceHeap.PushedIs` | src/pb2025_sentry_nav/FAST_LIO/include/ikd-Tree/ikd_Tree.h:140-148 | pushing adds exactly the item and keeps every order that the comparison follows on the items |
| `DistanceHeap.PoppedIs` | src/pb2025_sentry_nav/FAST_LIO/include/ikd-Tree/ikd_Tree.h:127-135 | popping takes exactly the first item and keeps every order that the comparison follows on the items |
| `DistanceHeap.LastReplacesFirst` | src/pb2025_sentry_nav/FAST_LIO/include/ikd-Tree/ikd_Tree.h:131-132 | the last item in place of the first: one item fewer, and a heap but for the root |
| `DistanceHeap.ManualHeap.constructor` | src/pb2025_sentry_nav/FAST_LIO/include/ikd-Tree/ikd_Tree.h:113-119 | an empty heap of the given capacity, 100 by default |
| `DistanceHeap.ManualHeap.Top` | src/pb2025_sentry_nav/FAST_LIO/include/ikd-Tree/ikd_Tree.h:136-139 | the first slot is returned; in every order that a heap with items is in, it is a maximum of the contents |
| `DistanceHeap.ManualHeap.MoveDown` | src/pb2025_sentry_nav/FAST_LIO/include/ikd-Tree/ikd_Tree.h:161-180 | moving the hole leaves what the specification says of sinking by exchanges |
| `DistanceHeap.ManualHeap.FloatUp` | src/pb2025_sentry_nav/FAST_LIO/include/ikd-Tree/ikd_Tree.h:181-197 | moving the hole leaves what the specification says of rising by exchanges |
| `DistanceHeap.ManualHeap.Push` | src/pb2025_sentry_nav/FAST_LIO/include/ikd-Tree/ikd_Tree.h:140-148 | below capacity the item is pushed as the specification says; at capacity nothing changes |
| `DistanceHeap.ManualHeap.Pop` | src/pb2025_sentry_nav/FAST_LIO/include/ikd-Tree/ikd_Tree.h:127-135 | a non-empty heap is popped as the specification says; an empty one stays empty |
| `NearestSearch.BoxIsLeast` | src/pb2025_sentry_nav/FAST_LIO/include/ikd-Tree/ikd_Tree.cpp:1691-1709 | no point in a box is nearer than the distance computed for the box |
| `NearestSearch.BoxIsAttained` | src/pb2025_sentry_nav/FAST_LIO/include/ikd-Tree/ikd_Tree.cpp:1691-1709 | some point of the box is at exactly the distance computed for the box |
| `NearestSearch.DistanceAlongAxis` | src/pb2025_sentry_nav/FAST_LIO/include/ikd-Tree/ikd_Tree.cpp:1683-1688 | points that differ in one coordinate are the square of that difference apart |
| `NearestSearch.DistanceAddsUp` | src/pb2025_sentry_nav/FAST_LIO/include/ikd-Tree/ikd_Tree.cpp:1683-1688 | the distance adds up along steps on different axes |
| `NearestSearch.CandidatesAreBeyond` | src/pb2025_sentry_nav/FAST_LIO/include/ikd-Tree/ikd_Tree.cpp:1066-1069 | no candidate of a subtree is nearer than its box, so none is left if the box is beyond the limit |
| `KdTree.HeardIsValid` | src/pb2025_sentry_nav/FAST_LIO/include/ikd-Tree/ikd_Tree.cpp:1370-1384 | a child that is told of its parent's marks is dead if the parent is, and otherwise stands for the same points |
| `KdTree.PushDownIsValid` | src/pb2025_sentry_nav/FAST_LIO/include/ikd-Tree/ikd_Tree.cpp:1360-1455 | handing the marks down keeps the tree valid, with boxes that are the smallest around what is not deleted, and changes no point that it stands for |
| `KdTree.FlattenIsLive` | src/pb2025_sentry_nav/FAST_LIO/include/ikd-Tree/ikd_Tree.cpp:1627-1660 | flattening yields exactly the points that are not deleted |
| `KdTree.BuildIsValid` | src/pb2025_sentry_nav/FAST_LIO/include/ikd-Tree/ikd_Tree.cpp:679-733 | a built tree is valid and stands for the points it was built from, whatever axis and arrangement are chosen |
| `KdTree.BalancedIsValid` | src/pb2025_sentry_nav/FAST_LIO/include/ikd-Tree/ikd_Tree.cpp:736-764 | rebuilding a subtree keeps the points it stands for, and leaves a node if there are any |
| `KdTree.UpdateIsValid` | src/pb2025_sentry_nav/FAST_LIO/include/ikd-Tree/ikd_Tree.cpp:1458-1605 | updating a node makes its box the smallest around the points that are not deleted, and marks none of them as deleted |
| `KdTree.AddIsValid` | src/pb2025_sentry_nav/FAST_LIO/include/ikd-Tree/ikd_Tree.cpp:995-1059 | inserting adds exactly one point, into deleted and undeleted subtrees alike |
| `KdTree.MissedOrCovered` | src/pb2025_sentry_nav/FAST_LIO/include/ikd-Tree/ikd_Tree.cpp:774-794 | a box that misses a node contains none of its points, and one that covers it contains all of them |
| `KdTree.AllInRangeIsCovered` | src/pb2025_sentry_nav/FAST_LIO/include/ikd-Tree/ikd_Tree.cpp:780-794 | a box that contains all points of a node covers it, so no node is left without points but by marking it as a whole |
| `KdTree.DeleteIsValid` | src/pb2025_sentry_nav/FAST_LIO/include/ikd-Tree/ikd_Tree.cpp:767-851 | deleting a box deletes exactly the points in it, upper faces excluded, whichever subtrees are passed over or only marked |
| `KdTree.RunIsValid` | src/pb2025_sentry_nav/FAST_LIO/include/ikd-Tree/ikd_Tree.cpp:679-1059 | over every run of building, inserting and deleting, each with its own choice of rebuilds: the tree is valid, it has a root if and only if it was last built from at least one point, and each operation does to the points it stands for what it means |
| `KdTree.RunFailsIff` | src/pb2025_sentry_nav/FAST_LIO/include/ikd-Tree/ikd_Tree.cpp:409-594 | a null pointer is met if and only if a point is inserted into a tree never built, or last built from no points; no deletion and no rebuild leads there |
| `KdOrder.BuildIsBalanced` | src/pb2025_sentry_nav/FAST_LIO/include/ikd-Tree/ikd_Tree.cpp:679-733 | a built tree has a node for each point, and at every node the subtrees are of one size or the right one has one point more |
| `KdOrder.RunIsOrdered` | src/pb2025_sentry_nav/FAST_LIO/include/ikd-Tree/ikd_Tree.cpp:679-1059 | over every run, every node divides the points below it, deleted or not, by its axis |
| `NearestSearch.CandidatesAreLive` | src/pb2025_sentry_nav/FAST_LIO/include/ikd-Tree/ikd_Tree.cpp:1085-1087 | the candidates are the points the tree stands for, as often as it holds them, with the sum of the squares of the three differences as distance, if that is at most the square of the search radius |
| `NearestSearch.PrunedSubtree` | src/pb2025_sentry_nav/FAST_LIO/include/ikd-Tree/ikd_Tree.cpp:1098-1098 | a subtree whose box is not nearer than the first of k kept items adds nothing |
| `NearestSearch.NotApartIsClose` | src/pb2025_sentry_nav/FAST_LIO/include/ikd-Tree/ikd_Tree.cpp:1066-1094 | distances with no gap between them differ by less than the tolerance for each of the items |
| `NearestSearch.Offer` | src/pb2025_sentry_nav/FAST_LIO/include/ikd-Tree/ikd_Tree.cpp:1087-1094 | a candidate within the limit is kept, put in for the first, or rejected, so that the heap holds k of those seen, and across every gap in the distances of all candidates k nearest |
| `NearestSearch.SearchBelow` | src/pb2025_sentry_nav/FAST_LIO/include/ikd-Tree/ikd_Tree.cpp:1096-1244 | both subtrees are searched or passed over in the order of the code, and what is passed over does not matter |
| `NearestSearch.Search` | src/pb2025_sentry_nav/FAST_LIO/include/ikd-Tree/ikd_Tree.cpp:1062-1245 | the pruned search leaves in the heap what showing it every point of the tree would, and hands marks down without changing what the tree stands for |
| `NearestSearch.Nearest` | src/pb2025_sentry_nav/FAST_LIO/include/ikd-Tree/ikd_Tree.cpp:426-461 | for all trees, k of the points within the radius, or all if there are fewer, each with the sum of the squares of the three differences as distance; none left out is nearer by a gap in the distances, and none comes after one that is farther by a gap; if all are told apart, they are k nearest, nearest first |
| `NearestSearch.NearestUpToTolerance` | src/pb2025_sentry_nav/FAST_LIO/include/ikd-Tree/ikd_Tree.cpp:426-461 | for all trees, no point left out is nearer than one found by more than 1e-10 for each candidate, and none comes after one that is farther by more than that |
| `Undistort.Sweep` | src/pb2025_sentry_nav/FAST_LIO/src/IMU_Processing.hpp:301-338 | every point but the first is compensated once, with the latest pose before it other than the final one, or left alone; the first with each such pose |
| `Undistort.FirstPointIsRecorded` | src/pb2025_sentry_nav/FAST_LIO/src/IMU_Processing.hpp:335-336 | the first point is compensated from each pose strictly before it but the final one, the latest first, each time with the next pose and the time since the pose |
| `Undistort.OnceIs` | src/pb2025_sentry_nav/FAST_LIO/src/IMU_Processing.hpp:301-338 | any other point is compensated from the latest pose strictly before it but the final one, with the next pose, over the time since the pose, and keeps its time |
| `Undistort.OnceIsNot` | src/pb2025_sentry_nav/FAST_LIO/src/IMU_Processing.hpp:301-338 | without such a pose it stays as it is |
| `Undistort.FirstLikeOthers` | src/pb2025_sentry_nav/FAST_LIO/src/IMU_Processing.hpp:301-338 | if there are at most two poses or the first point is not later than the second, it is treated like the others |
| `Undistort.AllAtMostOnceIff` | src/pb2025_sentry_nav/FAST_LIO/src/IMU_Processing.hpp:301-338 | every point is compensated at most once if and only if there are at most two poses or the first point is not later than the second |
| `Undistort.FirstPointTwiceExample` | src/pb2025_sentry_nav/FAST_LIO/src/IMU_Processing.hpp:335-336 | a scan of one point that is compensated with two poses |
| `RecoveryNodes.RecoveryNode.Tick` | src/pb2025_sentry_behavior/plugins/condition/control/recovery_node.cpp:27-101 | the loop ends with the return, the fields and the number of children asked that the specification says; other than two children raise the exception |
| `RecoveryNodes.FallsThroughIff` | src/pb2025_sentry_behavior/plugins/condition/control/recovery_node.cpp:38-100 | FAILURE is returned although no child failed last if and only if there are more retries than attempts, or as many and the recovery, whose turn it is, succeeds |
| `RecoveryNodes.CannotFallThroughIff` | src/pb2025_sentry_behavior/plugins/condition/control/recovery_node.cpp:38-100 | before the tick, for all answers to come: this cannot happen if and only if the retries, with the recovery under way, are within the attempts |
| `RecoveryNodes.TickLeavesRoom` | src/pb2025_sentry_behavior/plugins/condition/control/recovery_node.cpp:38-96 | a tick within the attempts leaves the node within them, so it takes a lower number of attempts for this to happen |
| `RecoveryNodes.LoweredAttemptsExample` | src/pb2025_sentry_behavior/plugins/condition/control/recovery_node.cpp:29-100 | two ticks, with two attempts and then one, after which FAILURE is returned on a recovery that succeeded |
| `RecoveryNodes.ActivationIsBounded` | src/pb2025_sentry_behavior/plugins/condition/control/recovery_node.cpp:38-96 | over an activation of any number of ticks the first child completes at most attempts + 1 times and the recovery succeeds at most attempts times |
| `RecoveryNodes.ActivationEnds` | src/pb2025_sentry_behavior/plugins/condition/control/recovery_node.cpp:38-96 | an activation that goes on has had at most 2 * attempts answers other than RUNNING |
| `RecoveryNodes.TickContinues` | src/pb2025_sentry_behavior/plugins/condition/control/recovery_node.cpp:27-101 | RUNNING is returned if and only if the activation goes on, and SUCCESS or FAILURE leave both counters at 0 |
| `RecoveryNodes.ErrorKeepsState` | src/pb2025_sentry_behavior/plugins/condition/control/recovery_node.cpp:67-93 | an error leaves the counters as they were when the child answered IDLE |
| `RecoveryNodes.EndedBy` | src/pb2025_sentry_behavior/plugins/condition/control/recovery_node.cpp:42-95 | SUCCESS if and only if the first child answered SUCCESS last; FAILURE if and only if the recovery failed or the first child failed without an attempt left |
| `MissionManagers.NextIsSound` | src/pb2025_sentry_nav/pb2025_nav_bringup/src/mapping_mission_manager.cpp:106-267 | each callback keeps: the goals sent are the first ones in order, none left out, at most one on its way or about to be retried, at most one phase of the end at a time, finished published exactly when it is so |
| `MissionManagers.RunIsSound` | src/pb2025_sentry_nav/pb2025_nav_bringup/src/mapping_mission_manager.cpp:106-267 | so it is in every run, however the action server, the services and the timers answer |
| `MissionManagers.FinishedOnlyAfterSaves` | src/pb2025_sentry_nav/pb2025_nav_bringup/src/mapping_mission_manager.cpp:186-267 | the mission is finished only after the time was up with both services there, the point cloud was saved and then the grid map, and stays finished |
| `MissionManagers.SendsAfterDeadlineIff` | src/pb2025_sentry_nav/pb2025_nav_bringup/src/mapping_mission_manager.cpp:106-198 | whatever comes once the time is up, saving and finishing included: another goal can be sent if and only if there is one left and a retry is armed, or there is one left after the one on its way and the mission is not finished |
| `MissionManagers.GoalAfterDeadlineExample` | src/pb2025_sentry_nav/pb2025_nav_bringup/src/mapping_mission_manager.cpp:167-198 | a mission that sends its second goal after the time was up |
| `MissionManagers.GoalAfterFinishExample` | src/pb2025_sentry_nav/pb2025_nav_bringup/src/mapping_mission_manager.cpp:161-198 | a mission whose retry sends the first goal after the time was up, and even after the maps were saved and the normal behaviour was let go |
| `MissionManagers.MissionManager.SendNextGoal` | src/pb2025_sentry_nav/pb2025_nav_bringup/src/mapping_mission_manager.cpp:127-159 | a goal is sent, a retry is armed, or nothing is left to send |
| `MissionManagers.MissionManager.OnGameStatus` | src/pb2025_sentry_nav/pb2025_nav_bringup/src/mapping_mission_manager.cpp:106-125 | the first status that starts the game arms the timer and sends a goal, and what every mission keeps is kept |
| `MissionManagers.MissionManager.RetrySendGoal` | src/pb2025_sentry_nav/pb2025_nav_bringup/src/mapping_mission_manager.cpp:161-165 | the retry is disarmed before the goal is sent again, and what every mission keeps is kept |
| `MissionManagers.MissionManager.OnNavResult` | src/pb2025_sentry_nav/pb2025_nav_bringup/src/mapping_mission_manager.cpp:167-184 | any result moves on to the next goal unless the mission is finished, and what every mission keeps is kept |
| `MissionManagers.MissionManager.OnBootstrapTimeout` | src/pb2025_sentry_nav/pb2025_nav_bringup/src/mapping_mission_manager.cpp:186-221 | the timer is disarmed and saving begins if both services are there, and what every mission keeps is kept |
| `MissionManagers.MissionManager.OnPcdSaved` | src/pb2025_sentry_nav/pb2025_nav_bringup/src/mapping_mission_manager.cpp:223-250 | the grid map is asked for only after the cloud was saved, and what every mission keeps is kept |
| `MissionManagers.MissionManager.OnGridMapSaved` | src/pb2025_sentry_nav/pb2025_nav_bringup/src/mapping_mission_manager.cpp:252-267 | the mission is finished and published so only after the grid map was saved, and what every mission keeps is kept |

## Left out

General:

- Publishers, subscriptions, parameters, clocks, logging and file access. The callbacks of a node run one at a time,
  since each node is spun by one thread (for the mapping node, `laserMapping.cpp:1719`).
- Rounding: coordinates, stamps and distances are exact reals.
- Library algorithms are taken by what they promise: sorting, lower bound, find-if, memory copy.
- Filter and pose arithmetic (integration steps, motion compensation, the estimator) are parameters.

By part:

- Crc16.GetCheckSum: the caller's length does not exceed the buffer, which the source cannot check. The table is a
  nested match instead of an array.
- LidarFusion.SortIsSortedPermutation: points with equal time offsets keep one particular order, which the library
  sort does not promise; nothing proved depends on it.
- LaserMapping.DualLidar.OnRightCloud: preprocessing of the cloud, the clock offset between lidar and IMU, and the
  waiting for an initial pose are not modelled; the same holds for the other callbacks.
- LaserMapping.Mapper.OnTimer: the estimator is a parameter that yields the new state or skips the scan; publishing,
  the low-pass filter of the published velocity and the map update are not modelled.
- MappingRun.FusionIsScheduleIndependent: stated for streams that do not go back in time, since a loop-back empties
  buffers; `MappingDelivery.CacheEqualsReplay` holds with loop-backs.
- MappingDelivery.ImuStreamIsPartitioned: stated for streams that do not go back in time, for the same reason.
- The callback for a single standard point cloud, which on a loop-back clears only one of its two buffers.
- TerrainErosion.NoDataObstacles: the cells that become obstacles, not the four corner points put out for each. How
  points are sorted into cells is not modelled; the counts per cell are given.
- TerrainConnectivity.Fill.FloodFill: the estimate of the elevation per cell and the filter that uses the marks are
  not modelled.
- RollingWindow.Window.RollOver: the counters per voxel, which the source does not move with the clouds, and the
  stacking of new points are not modelled.
- Pursuit.IntersectionIsOnBoth: the square root and the norm are any functions that satisfy their defining equations.
- Pursuit.ArcLengthIsExact: the use of the pose for curvature and speed limits is not modelled.
- Allocators.MemoryPoolAllocator.Malloc: sizes are unbounded, so the wrap-around of 64-bit sizes is not modelled; the
  aligned header size is taken to be the header size, as it is on 64-bit machines; the base allocator answers with
  null or with room that overlaps no chunk.
- Allocators.MemoryPoolAllocator.Realloc: the caller passes null or a block it was given with no more than its length.
- KdTree.RunIsValid: nodes are values, so updating in place through pointers is not modelled; nor are the counters of
  points and deleted points, from which the source decides when to rebuild (here every operation may rebuild any
  node that it has updated), the list of removed points, the background thread that rebuilds large subtrees, and the
  thinning out that decides which points are inserted and deleted.
- KdTree.DeleteIsValid: the number of deleted points that the source returns is not modelled.
- Deleting one point and bringing back the points of a box, which the mapping node does not use, and the ring buffer.
- NearestSearch.Search: one thread, without the locks.
- NearestSearch.Nearest: at least one neighbour is asked for; the source reads outside its buffer for none.
- Undistort.Sweep: the forward propagation that yields the poses, and the initialisation of the IMU.
- RecoveryNodes.RecoveryNode.Tick: halting the children is not modelled; counters do not wrap, which they cannot while
  the attempts fit their type.
- MissionManagers.RunIsSound: a mission that is disabled publishes at once that it is finished and does nothing else;
  that, the poses of the goals and the codes of the results are not modelled.
- The driver queues, the serial port and the simple conditions of the behaviour tree.
