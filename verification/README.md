# PosturePolice decision logic in Dafny

PosturePolice watches a webcam and reports whether the user is sitting up
straight. A pose detector supplies the left knee, hip, shoulder and ear. The
program measures three joint angles and compares them with fixed
thresholds. From that verdict it keeps a running session log, drives an
optional serial-port light, and ranks users on a leaderboard.

This project models the decision logic between the pose detector and the
GUI, database and serial side effects. Everything is stated over `real`.
It has six modules:

- `Geometry` (`geometry.dfy`): landmark points and the zero-length guard of
  `find_angles`. It also defines the virtual point 0.1 above the ear. The
  arccos/degrees computation is an uninterpreted parameter
  `arc: (Point, Point) -> real`, which maps the two rays leaving the vertex
  to an angle.
- `Classifier` (`classifier.dfy`): the two threshold sets. The desktop
  application (`analyze_posture`) uses 65–110 / ≥160 / ≥160. The
  stand-alone live view uses 60–105 / ≥165 / ≥165. The module also holds the
  live view's feedback-message priority and the handling of missing frames
  and landmarks.
- `Alert` (`alert.dfy`): the live view's count of consecutive bad frames and
  its alert once the count passes 100.
- `Session` (`session.dfy`): the `update_test` tick as a pure step
  `(state, slouch, now) -> (state', row?, command?)`, and the final row
  written by `on_closing`. It also covers the serial command choice, the
  ratio on the timer labels, and a whole-session replay.
- `Report` (`report.dfy`): `generate_report`. The SQL `GROUP BY` becomes a
  function over an in-memory sequence of rows. Then come the per-user ratio,
  the stable descending sort, the rank, and the percentile
  `(n - rank + 1) / n * 100`.
- `Wrappers` (`wrappers.dfy`): `Option` and `Result`.

Clock readings (`time.time()`) are parameters. A database insert is the
row the step returns. A serial write is the command it returns.

Two behaviours of the code are worth stating up front:

- `analyze_posture` has no separate "indeterminate" result: it returns
  `False` ("not slouching") for a missing frame, a frame with no pose and an
  exception while reading landmarks, and `Classifier.AnalyzePosture` does
  the same.
- The application keeps session state across ticks (`last_status`,
  `last_status_change_time` and two accumulators); `Session.Step` models it
  as written.

## Model

| member | source | states |
|---|---|---|
| Geometry.FindAngle | PosturePolice.py:27-43 | The angle is the zero sentinel whenever the vertex coincides with either neighbour, and the uninterpreted arccos of the two rays otherwise (posturedetection.py:27-43 is the same function) |
| Geometry.VirtualPoint | PosturePolice.py:140 | The virtual point has the ear's x, and its y is the ear's y minus 0.1 (also posturedetection.py:71) |
| Geometry.NeckAngleGuard | posturedetection.py:71-74 | The virtual point never coincides with the ear, so the neck angle is the zero sentinel exactly when the shoulder sits on the ear; otherwise it is measured against the fixed ray (0, -0.1) |
| Classifier.Measure | PosturePolice.py:140-143 | Which landmark coincidences force each of KHS, HSE and SEV to the zero sentinel, and what each angle is otherwise |
| Classifier.AnalyzePosture | PosturePolice.py:112-152 | No frame, no pose or a landmark error gives "no slouch"; otherwise slouch holds exactly when not (65 <= KHS <= 110 and HSE >= 160 and SEV >= 160), with inclusive bounds |
| Classifier.CoincidentLandmarksSlouch | PosturePolice.py:141-149 | A knee on the hip, a hip on the shoulder or a shoulder on the ear always classifies as slouching, under either threshold set |
| Classifier.ThresholdSetsDisagree | posturedetection.py:76-78 | The live view's thresholds and the application's disagree in both directions: some angles pass one and fail the other, either way round |
| Classifier.Judge | posturedetection.py:76-93 | Good exactly when 60 <= KHS <= 105, HSE >= 165 and SEV >= 165. Otherwise "SIT UP STRAIGHT!" iff KHS fails, else "FIX SHOULDER POSITION!" iff HSE fails, else "FIX NECK POSITION!" |
| Classifier.NeckMessageOnlyForNeck | posturedetection.py:88-93 | The last branch is reached only when SEV is the failing angle, and every bad frame gets exactly one of the three messages |
| Alert.ProcessFrame | posturedetection.py:55-97 | A frame without a pose leaves the counter alone. A good frame resets it to 0 with no alert. A bad frame adds exactly 1, and the alert fires iff the counter was already at least 100 |
| Alert.TrailingBad | posturedetection.py:81-85 | The reference for the counter: the length of the final run of bad verdicts, with every verdict in the run bad and the one before it good |
| Alert.CounterStep | posturedetection.py:80-97 | One frame takes the counter from the bad run before it to the bad run it ends, and shows the alert exactly when that run is longer than 100 |
| Alert.Monitor | posturedetection.py:47-97 | Over any frame sequence, the final counter is the length of the current run of bad frames (never negative). The alert fires on a frame iff it is bad and ends a run of more than 100, so never in the first 100 frames |
| Session.StatusOf | PosturePolice.py:318 | The status is "Slouch Detected" iff the verdict is slouch |
| Session.CommandFor | PosturePolice.py:218 | The command is "BP\n" iff the status is "Slouch Detected", and "GP\n" otherwise |
| Session.SendSerialCommand | PosturePolice.py:216-223 | Something is written iff a serial port is attached: "BP\n" exactly for a slouch, "GP\n" exactly for good posture |
| Session.Initial | PosturePolice.py:281-284 | A session starts with no status and both accumulators at zero |
| Session.Step | PosturePolice.py:316-344 | The first tick changes no accumulator and logs nothing. Later ticks grow only the previous status's accumulator, by the time since the last change, and with a forward clock neither decreases. A row is logged iff a previous status exists and the status changes; it carries the previous status and the time since the change, and the change time becomes now. A command goes out iff the status changes or the tick is a slouch, and it is BP iff slouching |
| Session.Tick | PosturePolice.py:155-164 | A tick with no frame, no pose or a landmark error records good posture and never sends BP; otherwise the status follows the posture verdict |
| Session.Close | PosturePolice.py:425-430 | Closing logs one final row iff a status was ever recorded, with that status and the time since the last change |
| Session.LabelRatio | PosturePolice.py:346-352 | The ratio label is updated iff the total time is positive. The value is a percentage in [0, 100]: 100 with no slouch time, 0 with no good time |
| Session.RunSession | PosturePolice.py:316-337 | Over a chronological session, rows are logged iff some tick happened. Their durations are non-negative and add up to exactly the time from the first tick to the close. Consecutive rows never repeat a status, and the last row carries the last tick's status. The accumulators add up to at least the time from the first tick to the last |
| Session.AccumulatorOvercount | PosturePolice.py:320-326 | As written, three good ticks at 0, 2 and 4 s leave 6 s of good time after 4 s |
| Session.TallyStep | PosturePolice.py:320-326 | Corrected accumulators: the first tick adds nothing; later ticks add the time since the previous tick to the status that held over it |
| Session.TallyMatchesElapsed | PosturePolice.py:320-326 | With the corrected accumulators, good plus slouch time equals exactly the time from the first tick to the last |
| Session.TallyNoOvercount | PosturePolice.py:320-326 | The corrected accumulators give 4 s of good time and no slouch time for the three-tick session above |
| Report.Users | PosturePolice.py:372-378 | The GROUP BY keys: every user with a row appears, no user appears twice, and nothing else appears |
| Report.GoodWithinTotal | PosturePolice.py:374-375 | With non-negative durations, a user's good time lies between 0 and their total time |
| Report.Aggregate | PosturePolice.py:372-379 | One result row per distinct user, carrying the sums of that user's good durations and of all their durations |
| Report.GroupingKeepsTotal | PosturePolice.py:372-378 | Grouping partitions the log: the users' totals add up to the summed duration of all rows |
| Report.UserRatio | PosturePolice.py:390 | The ratio is 0 when total time is not positive. It lies in [0, 100] when 0 <= good <= total, equals 100 when all time is good, and equals 0 when none is |
| Report.RatioInRange | PosturePolice.py:388-391 | With non-negative durations, every user's ratio is a percentage in [0, 100] |
| Report.Scores | PosturePolice.py:388-391 | The score list pairs every grouped user with their ratio, in grouped order |
| Report.InsertKeepsOrder | PosturePolice.py:393 | Inserting a score keeps, for every ratio, the scores of that ratio in their original relative order |
| Report.SortDesc | PosturePolice.py:393 | The sort returns a permutation in descending ratio order. For every ratio it keeps equal-ratio scores in their input order (stability), and it keeps every count of better or as-good scores |
| Report.FindRank | PosturePolice.py:394-403 | No rank iff the user has no score. Otherwise the 1-based position of the user's first score |
| Report.PercentageBeat | PosturePolice.py:405-406 | For rank r in 1..n the percentile lies in (0, 100], and it is 100 exactly for rank 1 |
| Report.PercentageAntitone | PosturePolice.py:406 | A worse rank never yields a higher percentile |
| Report.RankBounds | PosturePolice.py:393-400 | In a descending list, a score's rank is greater than the number of strictly better scores and at most the number of scores at least as good |
| Report.SessionRatio | PosturePolice.py:407-408 | The session ratio is 0 when no time was accumulated, and a percentage in [0, 100] for non-negative times |
| Report.GenerateReport | PosturePolice.py:370-408 | No rows gives NoData. A user without rows gives NoUserData. Otherwise the user's ratio is computed from their rows and is in [0, 100] for non-negative durations. The rank lies strictly above the number of users with a higher ratio and at most the number with a ratio as high. The percentile is (n - rank + 1)/n * 100 in (0, 100] |
| Report.StrictBestGets100 | PosturePolice.py:393-421 | A user whose ratio is strictly higher than every other user's gets 100% |
| Report.TiedBestMayGetLess | PosturePolice.py:393-421 | Two users tied at 100%: the one grouped second ranks 2 of 2 and gets 50%, so the report's "best performer always gets 100%" holds only for the first of tied users |
| Report.TieAwarePercentile | PosturePolice.py:393-421 | Corrected percentile: None iff the user has no rows; otherwise in (0, 100], and exactly 100 iff no user has a strictly higher ratio, so every tied best performer gets 100% |
| Report.TieAwareNeverLower | PosturePolice.py:393-406 | Whenever the report is produced, the tie-aware percentile exists and is at least the percentile the report shows |
| Report.TieAwareTiedBest | PosturePolice.py:421 | On the tied two-user log, the user grouped second gets 100% under the tie-aware percentile |

## Left out

- Webcam capture thread, `start_camera`, `stop_camera`, the camera lock and the shared frame globals: concurrency and device I/O. A tick's frame arrives as a `Detection` value.
- MediaPipe inference and landmark indexing: a foreign library. Its outcome is an input (`Detection` for the application, `Observation` for the live view).
- The arccos/degrees computation: transcendental floating-point maths. It is the uninterpreted `arc` parameter.
- Geometry.FindAngle: states nothing about the range (0°, 180°), symmetry or the collinear 180° case of a non-degenerate angle, because `arc` is uninterpreted.
- The square root in `distance`: the zero-length test is stated as "both components of the ray are zero", which is when the Euclidean length is zero.
- Floating-point rounding: all arithmetic is over exact reals.
- Tkinter GUI: window construction, `toggle_preview`, `update_preview`, label text formatting and `log_message`. Only the numbers the labels and the report show are modelled.
- The login window `start_test`, with its empty-username and existing-username checks: GUI input handling outside the decision logic.
- OpenCV drawing and display in the live view: only the choice of message and alert is modelled. The `q` key handler assigns an unused string.
- SQLite connection, SQL text, commits, timestamps and insert errors: the log is an in-memory sequence of rows.
- Report.GenerateReport: the branch where the SQL query raises is not modelled, because an in-memory sequence cannot fail.
- Report.Aggregate: SQLite does not promise an order for GROUP BY results. The model uses each user's first appearance in the log. The relative order of tied users in the ranking depends on this choice.
- Serial port enumeration, the interactive `input()` selection, the 9600-baud port set-up and write errors: device I/O. Only whether a command is written, and which one, is modelled.
- The `is None` landmark checks: they test lists of floats and can never fail.
- Scheduling by `after(2000, …)`: a session is a sequence of ticks with clock readings.

## Findings

| source | as written | input that shows it | evidently intended | confidence | as-written member | corrected member |
|---|---|---|---|---|---|---|
| PosturePolice.py:320-326 | Every tick adds `now - last_status_change_time` to the current status's accumulator, so the time since the last change is added again on every tick while the status holds | Good-posture ticks at 0, 2 and 4 seconds: the good-posture time becomes 6 s after 4 s of good posture | Each tick adds the time since the previous tick, so good plus slouch time equals the time observed | medium; not executed | Session.AccumulatorOvercount | Session.TallyMatchesElapsed |
| PosturePolice.py:393-421 | The rank is the 1-based position in the stably sorted scores, so of several users tied at the best ratio only the first in GROUP BY order gets rank 1, while the report says the best performer always gets 100% | Two users with one 1 s good-posture row each, report for the user grouped second: rank 2 of 2 and 50% | Every user tied at the best ratio gets 100%: the rank is one more than the number of users with a strictly higher ratio | low; not executed | Report.TiedBestMayGetLess | Report.TieAwarePercentile |

`Session.Step` keeps the as-written accumulators because the timer labels
and the report's session ratio show those numbers. The corrected tally is
`Session.TallyStep`. `Report.SessionRatio` and `Session.LabelRatio` take the
accumulated times as inputs, so either tally can feed them. The logged rows
are not affected by the overcount: `Session.RunSession` proves their
durations add up to the elapsed time.

`Report.GenerateReport` keeps the as-written rank, because that is the
percentile the report window shows; `Report.StrictBestGets100` proves the
promise holds when the best ratio is not shared. `Report.TieAwarePercentile`
is the corrected percentile, `Report.TieAwareTiedBest` shows it on the tied
log, and `Report.TieAwareNeverLower` proves it is never below the one shown.
