# Affect sampler: scheduler, uploader and REST path handling in Dafny

This project models two parts of the affect sampler.

The Android client:
- **Next-sample scheduler.** The daily sampling window `[start, end)` is cut into `samplesPerDay` equal slots. From a probe instant, the scheduler picks the next slot, rolling over to the next day's window when the probe is in or past the last slot. It then draws a random instant inside that slot and sets the one alarm to it, or cancels the alarm. The `Interval` value type is modelled with its `equals`, `hashCode` and `containsTimestamp`.
- **Upload counter.** `Synchronizer.sync` posts a JSON array one element at a time and counts the 201 replies. A 302 reply is a duplicate. Any other reply, or a `SyncException` from the client, aborts the upload. The pending intent that carries the sample time is reused while an alarm is pending, so its `SCHEDULED_AT` extra keeps the value it was created with.

The App Engine server:
- **URL dispatch.** The generic `UrlParser` matches a prefix, tries its patterns in order and calls the first matching callback. `RestUrlParser` uses six fixed REST path shapes and normalises its prefix with `_doprefix`.
- **Class-path parsing.** `path_to_classname_and_id` parses `^/?(\w+)/?(\d*)$`.
- **Name registries.** `restutil.py` keeps two tables: the specials registry and the model class registry.

Modules, file by file:

- `wrappers.dfy` (`Wrappers`): `Option` and `Result`.
- `javamath.dfy` (`JavaMath`):
  - Java's truncating `/` and `%`;
  - 32- and 64-bit wrap-around;
  - `Math.abs(long)`;
  - `Integer.parseInt`, with `Integer.toString` as its partner.
- `localtime.dfy` (`LocalTime`): instants as local-time milliseconds with a fixed 86 400 000 ms day, and `timeOnDay`.
- `interval.dfy` (`Intervals`): `Interval` and its methods.
- `scheduler.dfy` (`Scheduler`):
  - `getNextInterval`, `randomLong`, `getNextSampleTime` and `readPrefs` as functions;
  - the alarm service and `SampleScheduler` as classes.
- `synchronizer.dfy` (`Sync`): the upload as a function, and the `Client` and `Synchronizer` classes whose `sync` loop is proved against it.
- `regex.dfy` (`RegexParts`): hand-written matchers for the regular-expression pieces the server uses. In Python's `re`, `\w` is `[A-Za-z0-9_]`, `\d` is `[0-9]` and `$` also matches before a final newline.
- `urlparser.dfy` (`UrlDispatch`):
  - the dispatch of `UrlParser.process` as a function;
  - the `UrlParser` class, whose constructor loop and `process` are proved against it;
  - the class docstring's example session.
- `resturl.dfy` (`RestUrl`):
  - `_doprefix`;
  - the six REST matchers in their registration order, and the `do_*` tuple builders;
  - `RestUrlParser` as a class over `UrlParser`;
  - round-trip lemmas in both directions between path shapes and parse results.
- `classpath.dfy` (`ClassPath`): `path_to_classname_and_id`, with an exact description of the paths it accepts.
- `strorder.dfy` (`StringOrder`): Python's `sorted` over a set of strings, as the unique strictly increasing listing.
- `registry.dfy` (`Registry`):
  - the registrations as step functions on the tables;
  - a `Registries` class holding the module-level dicts, whose methods are proved against those functions.

Where the code and the documentation (docstrings and tests) disagree, the model follows the code:

- **A probe before the window gets slot 1.** `testGetNextIntervalYesterday` probes at 07:53, seven minutes before a 08:00 window. The truncating division at SampleScheduler.java line 128 yields quotient 0, so the code gives slot 1 (10:00–12:00), not slot 0. The test asserts that `startTime` equals both 08:00 and 10:00, so it contradicts itself (SchedulerTest.java lines 69-70). `Scheduler.ProbeBeforeWindow` states what the code does.
- **Two test methods never run.** `scheduleInterval` and `scheduleCancel` lack the `test` name prefix, so JUnit never runs them. Their claims are modelled from the code.
- **The test fixture ignores its arguments.** `TestUtils.makePrefs` always builds an 08:00–22:00 window, and `Scheduler.TestPrefs` does the same.
- **The draw can land on the interval's own start.** `testRandomInInterval` asserts that every draw lies inside the interval. A draw of 0 lands on its start, which `containsTimestamp` excludes (`Scheduler.ZeroDrawNotContained`).
- **`RestUrlParser()` with no prefix leaves the prefix pattern empty.** `_doprefix(None)` is `None`, so `UrlParser` compiles `''`. The rest of the path then starts with '/', and no REST pattern accepts that, so no absolute path parses (`RestUrl.EmptyPrefixRejectsPaths`). The docstring's `RestUrlParser('')` example instead gets the prefix `/`.

## Model

| member | source | states |
|---|---|---|
| JavaMath.JavaDiv | src/net/benmoran/affectsampler/SampleScheduler.java:118 | Java `/`: the quotient's magnitude is the floor of the magnitudes, and its sign is positive only when the operand signs agree |
| JavaMath.JavaRem | src/net/benmoran/affectsampler/SampleScheduler.java:150 | Java `%`: the remainder has the dividend's sign and the magnitude of the magnitudes' remainder |
| JavaMath.JavaDivZeroIff | src/net/benmoran/affectsampler/SampleScheduler.java:128 | a truncated quotient is 0 exactly when the dividend is smaller in magnitude than the divisor |
| JavaMath.JavaDivNegative | src/net/benmoran/affectsampler/SampleScheduler.java:128 | a negative dividend above minus the divisor truncates to 0; one at or below it gives at most -1 |
| JavaMath.Wrap32 | src/net/benmoran/affectsampler/SampleScheduler.java:128-129 | the `(int)` cast: the result is an int, differs from the input by whole turns of 2^32, and is the input itself when that fits |
| JavaMath.Wrap64 | src/net/benmoran/affectsampler/SampleScheduler.java:148-151 | `long` arithmetic: the result is a long congruent to the input modulo 2^64, and the input when it fits |
| JavaMath.AbsLong | src/net/benmoran/affectsampler/SampleScheduler.java:149 | `Math.abs(long)` is the magnitude, except that Long.MIN_VALUE is returned unchanged |
| JavaMath.ParseInt | src/net/benmoran/affectsampler/SampleScheduler.java:69-70 | `Integer.parseInt` accepts exactly an optional '-' and one or more digits whose value fits in 32 bits, and returns that value; anything else, the empty string included, raises |
| JavaMath.IntToString | src/net/benmoran/affectsampler/SampleScheduler.java:69-70 | `Integer.toString`, the form a stored frequency takes: a numeral that starts with '-' exactly for negative numbers and has no leading zero except in "0" |
| JavaMath.ParseIntRoundTrip | src/net/benmoran/affectsampler/SampleScheduler.java:69-70 | every 32-bit int, printed in decimal, parses back to itself |
| LocalTime.HourOfDay | src/net/benmoran/affectsampler/SampleScheduler.java:102 | `Calendar.HOUR_OF_DAY` lies in 0..23 |
| LocalTime.MinuteOfHour | src/net/benmoran/affectsampler/SampleScheduler.java:103 | `Calendar.MINUTE` lies in 0..59 |
| LocalTime.SecondOfMinute | src/net/benmoran/affectsampler/SampleScheduler.java:104 | `Calendar.SECOND` lies in 0..59 |
| LocalTime.MillisOfSecond | src/net/benmoran/affectsampler/SampleScheduler.java:101 | the millisecond, which `timeOnDay` keeps from the day, lies in 0..999 |
| LocalTime.Compose | src/net/benmoran/affectsampler/SampleScheduler.java:106-108 | setting in-range clock fields on a date gives an instant within that date |
| LocalTime.Decompose | src/net/benmoran/affectsampler/SampleScheduler.java:102-104 | every instant's hour, minute, second and millisecond are in range and compose back to the instant |
| LocalTime.ComposeFields | src/net/benmoran/affectsampler/SampleScheduler.java:106-108 | the calendar fields read back from a composed instant are the ones it was built from |
| LocalTime.TimeOnDay | src/net/benmoran/affectsampler/SampleScheduler.java:97-110 | `timeOnDay` keeps the day's date and millisecond, takes hour, minute and second from the time, and lies within that date |
| LocalTime.AddDayFields | src/net/benmoran/affectsampler/SampleScheduler.java:121-124 | adding one day (`Calendar.add(DATE, 1)`) advances the date by one and keeps every clock field |
| Intervals.Copy | src/net/benmoran/affectsampler/Interval.java:31-35 | the copy constructor yields an interval equal to its source, both ways |
| Intervals.Equals | src/net/benmoran/affectsampler/Interval.java:54-67 | `equals` holds exactly when the other object is an interval with the same three fields; it is false for null or other classes |
| Intervals.EqualsIsEquivalence | src/net/benmoran/affectsampler/Interval.java:54-67 | `equals` is reflexive, symmetric and transitive, and never equal to null |
| Intervals.SequenceDistinguishes | src/net/benmoran/affectsampler/Interval.java:63 | intervals that differ only in `sequenceID` are unequal |
| Intervals.ContainsTimestamp | src/net/benmoran/affectsampler/Interval.java:45-47 | containment excludes both ends, and can hold only when start < end |
| Intervals.TimestampHash | src/net/benmoran/affectsampler/Interval.java:39-40 | `Timestamp.hashCode`, the xor of the two words of the millisecond count, is a 32-bit int |
| Intervals.HashCode | src/net/benmoran/affectsampler/Interval.java:37-43 | the hash is a 32-bit int |
| Intervals.HashConsistentWithEquals | src/net/benmoran/affectsampler/Interval.java:37-43 | equal intervals have equal hashes |
| Intervals.HashCongruence | src/net/benmoran/affectsampler/Interval.java:39-42 | the hash is `1369*h(start) + 37*h(end) + seq` less whole turns of 2^32 |
| Intervals.HashSeparatesSequence | src/net/benmoran/affectsampler/Interval.java:41 | intervals that differ only in `sequenceID` hash differently |
| Intervals.HashSeparatesEnd | src/net/benmoran/affectsampler/Interval.java:40 | intervals that differ only in an end with a different timestamp hash differently |
| Intervals.HashSeparatesStart | src/net/benmoran/affectsampler/Interval.java:39-40 | intervals that differ only in a start with a different timestamp hash differently |
| Intervals.MinuteApartHashes | test/net/benmoran/affectsampler/SchedulerTest.java:45-53 | 08:00 and 08:01 on 1 January 2009 have different timestamp hashes |
| Scheduler.WindowStart | src/net/benmoran/affectsampler/SampleScheduler.java:113-116 | the window start is on the probe's date, at the start time's hour, minute and second, with the probe's millisecond |
| Scheduler.WindowEnd | src/net/benmoran/affectsampler/SampleScheduler.java:114-117 | the window end is on the probe's date, at the end time's hour, minute and second, with the probe's millisecond |
| Scheduler.Duration | src/net/benmoran/affectsampler/SampleScheduler.java:118 | the duration is the window length divided by `samplesPerDay`, truncated toward zero, and is shorter than a day |
| Scheduler.RollsOver | src/net/benmoran/affectsampler/SampleScheduler.java:120 | when `end - duration` fits in a long, the rollover happens exactly when the probe is at or past it |
| Scheduler.BaseFields | src/net/benmoran/affectsampler/SampleScheduler.java:120-126 | the base is the start time of day on the probe's date, or on the next date after a rollover, with the probe's millisecond |
| Scheduler.SlotNumber | src/net/benmoran/affectsampler/SampleScheduler.java:128-129 | the slot number is never negative, and it is 0 exactly when the truncated quotient is negative |
| Scheduler.NextInterval | src/net/benmoran/affectsampler/SampleScheduler.java:112-133 | `getNextInterval` throws ArithmeticException exactly when `samplesPerDay` or the duration is 0; otherwise it returns a well-formed interval |
| Scheduler.IntervalInRange | src/net/benmoran/affectsampler/SampleScheduler.java:118-131 | for a safe probe and a non-zero duration, the interval is `base + d * slot` up to `base + d * (slot + 1)` with the unwrapped slot number |
| Scheduler.NoOverflow | src/net/benmoran/affectsampler/SampleScheduler.java:116-131 | for a probe away from the ends of the `long` range, no `long` or `int` operation of `getNextInterval` wraps |
| Scheduler.SlotCases | src/net/benmoran/affectsampler/SampleScheduler.java:128-129 | the slot is 0 one duration or more before the base, 1 less than one duration before it, and k+1 for a probe in `[base+k*d, base+(k+1)*d)`; the slot's start is after the probe |
| Scheduler.NextIntervalSlot | src/net/benmoran/affectsampler/SampleScheduler.java:118-132 | the interval is one duration long, starts `seq` durations after the base and strictly after the probe, and `seq` follows the three cases |
| Scheduler.RolloverBase | src/net/benmoran/affectsampler/SampleScheduler.java:120-126 | the base is the next day's start exactly when the probe is at or past `end - duration`, and otherwise the same day's start |
| Scheduler.RolloverSlot | src/net/benmoran/affectsampler/SampleScheduler.java:120-129 | after a rollover the slot is 0 or 1, and it is 0 exactly when the probe is at least one duration before the next start |
| Scheduler.ExactSlotsStayInWindow | src/net/benmoran/affectsampler/SampleScheduler.java:118-132 | when the window divides exactly into n >= 2 slots and there is no rollover, the slot is at most n-1 and the interval lies inside the window |
| Scheduler.TimeOnDayAt | src/net/benmoran/affectsampler/SampleScheduler.java:97-110 | setting an instant's clock to h:m:00 gives h:m on its date plus its millisecond |
| Scheduler.IntervalValueObjects | test/net/benmoran/affectsampler/SchedulerTest.java:38-54 | equal intervals are equal and hash alike; a different sequence number or a start one minute later changes both `equals` and `hashCode` |
| Scheduler.ProbeInsideWindow | test/net/benmoran/affectsampler/SchedulerTest.java:56-63 | a probe at 08:53 with 7 slots gets slot 1, 10:00 to 12:00 |
| Scheduler.ProbeInLastSlot | test/net/benmoran/affectsampler/SchedulerTest.java:75-82 | a probe at 21:53 rolls over to slot 0 of the next day, 08:00 to 10:00 |
| Scheduler.ProbeBeforeWindow | src/net/benmoran/affectsampler/SampleScheduler.java:128-129 | a probe at 07:53 gets slot 1, 10:00 to 12:00, whatever the test says |
| Scheduler.SingleSlotOverrun | src/net/benmoran/affectsampler/SampleScheduler.java:128-131 | with one slot, a probe just before the window gets slot 1, which runs past the window's end |
| Scheduler.SingleSlotLateRollover | src/net/benmoran/affectsampler/SampleScheduler.java:120-131 | with one slot, a probe at 19:00 rolls over and gets slot 1 of the next day, after that day's window |
| Scheduler.InexactSlotsOverrun | src/net/benmoran/affectsampler/SampleScheduler.java:118-132 | when the slots do not divide the window, a probe near the end gets slot n, which ends after the window |
| Scheduler.RandomLong | src/net/benmoran/affectsampler/SampleScheduler.java:147-152 | `randomLong` throws exactly when the range is empty, and otherwise returns a long |
| Scheduler.RandomLongInRange | src/net/benmoran/affectsampler/SampleScheduler.java:147-152 | for every draw but Long.MIN_VALUE the value lies in `[min, max)`, at the draw's magnitude modulo the range |
| Scheduler.RandomLongReachesAll | src/net/benmoran/affectsampler/SampleScheduler.java:147-152 | every value of the range is the result of some draw |
| Scheduler.RandomLongMinimumDraw | src/net/benmoran/affectsampler/SampleScheduler.java:149-151 | the draw Long.MIN_VALUE gives a value at or below `min` |
| Scheduler.RandomLongMinimumDrawExample | src/net/benmoran/affectsampler/SampleScheduler.java:149-151 | `randomLong(0, 3)` with draw Long.MIN_VALUE gives -2 |
| Scheduler.NextSampleTime | src/net/benmoran/affectsampler/SampleScheduler.java:139-145 | `getNextSampleTime` returns null exactly when `samplesPerDay` is 0; its only exception is ArithmeticException |
| Scheduler.SampleInNextInterval | src/net/benmoran/affectsampler/SampleScheduler.java:139-152 | the sample lies in the next interval, from its start inclusive to its end exclusive |
| Scheduler.ZeroDrawNotContained | test/net/benmoran/affectsampler/SchedulerTest.java:85-98 | a draw of 0 gives the interval's start, which `containsTimestamp` rejects |
| Scheduler.TimeOrElse | src/net/benmoran/affectsampler/SampleScheduler.java:57-67 | a time that parses is kept, and one that does not is replaced by the fallback |
| Scheduler.GetString | src/net/benmoran/affectsampler/SampleScheduler.java:58-59 | a stored setting is returned, otherwise the default |
| Scheduler.ReadPrefs | src/net/benmoran/affectsampler/SampleScheduler.java:52-72 | `readPrefs` can only raise NumberFormatException, and uses 4 slots when no frequency is stored |
| Scheduler.ReadPrefsDefaults | src/net/benmoran/affectsampler/SampleScheduler.java:58-70 | with nothing stored, the times "0800" and "2000" are parsed and the frequency is 4 |
| Scheduler.ReadPrefsTimes | src/net/benmoran/affectsampler/SampleScheduler.java:57-67 | for any settings, each time is the stored string, or "0800" / "2000" when none is stored, parsed with its fallback; a stored time that parses is used as is |
| Scheduler.ReadPrefsTimeFallback | src/net/benmoran/affectsampler/SampleScheduler.java:57-67 | an unparsable start or end time falls back to 08:00:00 or 20:00:00 |
| Scheduler.ReadPrefsFrequency | src/net/benmoran/affectsampler/SampleScheduler.java:69-70 | a stored frequency is read as the number it prints, and a malformed one raises NumberFormatException |
| Scheduler.ReadPrefsMalformedFrequency | src/net/benmoran/affectsampler/SampleScheduler.java:69-70 | the frequency "four" makes `readPrefs` raise |
| Scheduler.AlarmService.GetBroadcast | src/net/benmoran/affectsampler/SampleScheduler.java:170-171 | with flags 0, a pending intent that already exists is returned with its old extra; only a new one carries the new extra |
| Scheduler.AlarmService.Set | src/net/benmoran/affectsampler/SampleScheduler.java:181-186 | setting the alarm replaces any earlier alarm of the same intent and keeps the extra it carries |
| Scheduler.AlarmService.Cancel | src/net/benmoran/affectsampler/SampleScheduler.java:192-196 | cancelling clears the alarm |
| Scheduler.SampleScheduler.NoAlarms | src/net/benmoran/affectsampler/SampleScheduler.java:135-137 | alarms are off exactly when `getNextSampleTime` returns null for every probe and draw |
| Scheduler.SampleScheduler.ScheduleNextSample | src/net/benmoran/affectsampler/SampleScheduler.java:164-179 | with 0 slots the alarm is cleared and the result is null; otherwise the one alarm is set to the sample time, which lies in the next interval. The extra delivered is the new one (-1 or the sample time) unless an alarm was pending, whose intent and old extra are reused |
| Sync.Answer | src/net/benmoran/affectsampler/Synchronizer.java:58-67 | a 201 reply is synced, 302 is not synced, any other status is an error naming it, and a failure of the client is its own error |
| Sync.Upload | src/net/benmoran/affectsampler/Synchronizer.java:42-54 | the count is between 0 and the number of posts, and no more posts are made than there are elements left |
| Sync.UploadPostsSamples | src/net/benmoran/affectsampler/Synchronizer.java:58 | every request the upload sends goes to the sample-creation URI |
| Sync.Classify | src/net/benmoran/affectsampler/Synchronizer.java:60-67 | 201 is synced, 302 is not synced, and any other status is an error naming it |
| Sync.AcceptedUpload | src/net/benmoran/affectsampler/Synchronizer.java:42-54 | when every reply is 201 or 302, every element is posted once in index order and the count is the number of 201 replies |
| Sync.RejectedUpload | src/net/benmoran/affectsampler/Synchronizer.java:44-52 | the first element that is not an object, or whose post fails or is answered with neither 201 nor 302, aborts the upload with its error, and no later element is posted |
| Sync.EmptyUpload | src/net/benmoran/affectsampler/Synchronizer.java:43-53 | an empty array posts nothing and counts 0 |
| Sync.UploadStopsAtNonObject | src/net/benmoran/affectsampler/Synchronizer.java:44-51 | an element that is not a JSON object ends the upload with the JSON error, and nothing more is posted |
| Sync.UploadStopsAtReply | src/net/benmoran/affectsampler/Synchronizer.java:56-67 | an object whose post fails or whose reply is neither 201 nor 302 is posted, and the upload ends with that error |
| Sync.UploadGoesOn | src/net/benmoran/affectsampler/Synchronizer.java:44-48 | an object answered 201 or 302 is posted, counted when the reply is 201, and the upload continues with the next element |
| Sync.TwoCreated | test/net/benmoran/affectsampler/SynchronizerTestCase.java:82-98 | two elements both answered 201 count 2, posted in order |
| Sync.Client.PostJSON | src/net/benmoran/affectsampler/datastore/AppEngineClientImpl.java:83-111 | each post is recorded and gets the server's next status, or the client's own SyncException |
| Sync.Synchronizer.SyncObject | src/net/benmoran/affectsampler/Synchronizer.java:56-69 | `syncObject` posts the object to `/Sample/` and classifies the reply; the client's exception escapes |
| Sync.Synchronizer.Sync | src/net/benmoran/affectsampler/Synchronizer.java:42-54 | `sync` returns the upload's result, and the requests it sends are exactly the upload's posts |
| Sync.Synchronizer.GetLatest | src/net/benmoran/affectsampler/Synchronizer.java:76-78 | the latest timestamp is always -1 |
| RegexParts.Span | server/parsutil.py:159-176 | the longest run of accepted characters from a position: all of them accepted, and the next one not |
| RegexParts.OptSlash | server/jsonutil.py:33 | `/?` takes one character exactly when the next one is a slash |
| RegexParts.LiteralMatches | server/parsutil.py:75-79 | a literal prefix matches exactly the paths that start with it, ending after it, with no groups |
| RegexParts.WordLength | server/parsutil.py:159-176 | greedy `\w*`: every character taken is a word character, and the next one is not |
| RegexParts.WordPrefix | server/jsonutil.py:33 | greedy `\w+` on a word followed by a non-word character takes exactly the word |
| RegexParts.DigitPrefix | server/jsonutil.py:33 | greedy `\d*` on digits followed by a non-digit takes exactly the digits |
| UrlDispatch.Rest | server/parsutil.py:79 | `path[end:]`: the path is the taken part followed by the rest |
| UrlDispatch.NamedArgs | server/parsutil.py:85-86 | the callback's arguments are the prefix's groups, updated and overridden by the pattern's groups |
| UrlDispatch.FirstMatch | server/parsutil.py:81-83 | the pattern chosen is one that matches, and no earlier pattern matches |
| UrlDispatch.Dispatch | server/parsutil.py:75-89 | `process` gives None exactly when the prefix does not match or no pattern matches the rest |
| UrlDispatch.DispatchFirstWins | server/parsutil.py:81-87 | when pattern k is the first to match, its callback gets the merged groups |
| UrlDispatch.Select | server/parsutil.py:81-89 | the pattern cascade without a prefix gives None exactly when no pattern matches |
| UrlDispatch.LiteralPrefixDispatch | server/parsutil.py:73-89 | with a literal prefix, dispatch is the pattern cascade on the path after the prefix, or None when the path does not start with it |
| UrlDispatch.UrlParser.constructor | server/parsutil.py:50-62 | the prefix is the given pattern, or '' for None, and the callbacks are the compiled patterns with their callables, in order |
| UrlDispatch.UrlParser.Process | server/parsutil.py:64-89 | a new prefix given to `process` replaces the kept one for this and later calls; the result is the dispatch under the current prefix |
| UrlDispatch.FooPrefixSelectsBar | server/parsutil.py:26-31 | under the `/(?P<foo>\w+)/` prefix, a path word followed by digits goes to the first pattern, which gets both the prefix's foo and its own bar |
| UrlDispatch.FooPrefixSelectsFoo | server/parsutil.py:26-33 | under that prefix, a segment that does not start with a digit goes to the second pattern, whose foo overrides the prefix's |
| UrlDispatch.ExampleBarWins | server/parsutil.py:25-31 | '/zipzop/23/whatever' gives bar '23' and foo 'zipzop' |
| UrlDispatch.ExampleFooOverrides | server/parsutil.py:32-33 | '/zipzop/whoo/whatever' gives foo 'whoo': the pattern's group overrides the prefix's |
| UrlDispatch.SlashPrefixSelectsFoo | server/parsutil.py:40-43 | with prefix '/', a path whose first segment does not start with a digit goes to the `[^/]*` pattern |
| UrlDispatch.ExampleSlashPrefix | server/parsutil.py:40-41 | with prefix '/', '/zipzop/whoo/whatever' gives foo 'zipzop' |
| UrlDispatch.ExampleSession | server/parsutil.py:25-45 | the docstring session: the four argument lists `show` prints, and the prefix pattern '/' after the change, which persists |
| RestUrl.StripSlashes | server/parsutil.py:119 | `strip('/')` leaves no slash at either end and takes off only slashes |
| RestUrl.StripSlashesOf | server/parsutil.py:119 | stripping a core that has no slash at either end gives back that core |
| RestUrl.DoPrefix | server/parsutil.py:116-121 | `_doprefix` maps None to None, and any string to one that starts and ends with '/' |
| RestUrl.DoPrefixOf | server/parsutil.py:116-121 | slashes around a core give '/core/', or '/' when the core is empty |
| RestUrl.DoPrefixIdempotent | server/parsutil.py:116-121 | normalising a normalised prefix changes nothing |
| RestUrl.SpecialLength | server/parsutil.py:163 | `\$\w+` takes a '$' and one or more word characters, all of them |
| RestUrl.Gap | server/parsutil.py:163-172 | `/?` followed by the '/' of the next group takes at most two slashes, as many as there are |
| RestUrl.MatchSpecial | server/parsutil.py:163 | `(?P<special>\$\w+)/?` matches exactly when the string starts with '$' and a word character; it binds only `special`, to a prefix of the string, and ends inside it |
| RestUrl.MatchSpecialMethod | server/parsutil.py:163-164 | a match binds exactly `special` and `method` and ends inside the string |
| RestUrl.MatchModel | server/parsutil.py:169 | `(?P<model>\w+)/?` matches exactly when the string starts with a word character; it binds only `model`, to a prefix of the string, and ends inside it |
| RestUrl.MatchModelMethod | server/parsutil.py:169-170 | a match binds exactly `model` and `method` and ends inside the string |
| RestUrl.MatchModelStrid | server/parsutil.py:169-171 | a match binds exactly `model` and `strid` and ends inside the string |
| RestUrl.MatchModelStridMethod | server/parsutil.py:169-172 | a match binds exactly `model`, `strid` and `method` and ends inside the string |
| RestUrl.MatchOverlaps | server/parsutil.py:162-176 | each longer pattern matches only where the shorter one registered after it does, hence the registration order |
| RestUrl.DoSpecial | server/parsutil.py:180-181 | `do_special` gives a special tuple carrying the `special` argument |
| RestUrl.DoModel | server/parsutil.py:182-183 | `do_model` gives a model tuple carrying the `model` argument |
| RestUrl.DoSpecialMethod | server/parsutil.py:184-185 | `do_special_method` gives a special-method tuple carrying the `special` and `method` arguments |
| RestUrl.DoModelMethod | server/parsutil.py:186-187 | `do_model_method` gives a model-method tuple carrying the `model` and `method` arguments |
| RestUrl.DoModelStrid | server/parsutil.py:188-189 | `do_model_strid` gives a model-strid tuple carrying the `model` and `strid` arguments |
| RestUrl.DoModelStridMethod | server/parsutil.py:190-191 | `do_model_strid_method` gives a model-strid-method tuple carrying the `model`, `strid` and `method` arguments |
| RestUrl.RestCompile | server/parsutil.py:57-62 | a prefix pattern that is empty or starts with '/' is never one of the six patterns, so it is compiled as a literal |
| RestUrl.RestPatternsCompile | server/parsutil.py:159-178 | the parser's routes are the six patterns compiled in registration order with their `do_*` builders |
| RestUrl.Parse | server/parsutil.py:81-89 | the rest of the path gives None exactly when neither the special nor the model pattern matches it |
| RestUrl.ParseCascade | server/parsutil.py:162-176 | the rest of the path tries special_method, special, model_strid_method, model_strid, model_method and model, in that order |
| RestUrl.ParseSpecial | server/parsutil.py:163-181 | '$word' optionally followed by '/' is a special |
| RestUrl.ParseSpecialMethod | server/parsutil.py:159-185 | '$word', one or two slashes and a word is a special method |
| RestUrl.ParseModel | server/parsutil.py:169-183 | a word optionally followed by '/' is a model |
| RestUrl.ParseModelMethod | server/parsutil.py:169-187 | a word, one or two slashes and a word that does not start with a digit is a model method |
| RestUrl.ParseModelStrid | server/parsutil.py:160-189 | a word, one or two slashes and digits is a model with a string id |
| RestUrl.ParseModelStridMethod | server/parsutil.py:159-191 | a word, one or two slashes, digits, '/' and a word is a method on a model instance |
| RestUrl.RenderParses | server/parsutil.py:159-191 | every well-formed target, written out with either gap and an optional trailing '/', parses back to itself |
| RestUrl.SlashNeverParses | server/parsutil.py:163-169 | a rest that is empty or starts with '/' matches no pattern |
| RestUrl.ParseSound | server/parsutil.py:159-191 | whatever is parsed is well-formed, and its written-out form is a prefix of the input |
| RestUrl.RestDispatch | server/parsutil.py:64-89 | the REST dispatch is UrlParser's dispatch with a literal prefix and the six routes |
| RestUrl.DispatchRendered | server/parsutil.py:64-89 | the prefix followed by a written-out target is dispatched to that target |
| RestUrl.DispatchSound | server/parsutil.py:75-87 | a dispatched path starts with the prefix, followed by the written-out target |
| RestUrl.EmptyPrefixRejectsPaths | server/parsutil.py:118 | with the empty prefix pattern (no prefix given), no path that is empty or starts with '/' parses |
| RestUrl.RestUrlParser.constructor | server/parsutil.py:126-178 | the parser's prefix pattern is the normalised prefix ('' for None) and its routes are the six REST patterns |
| RestUrl.RestUrlParser.Process | server/parsutil.py:123-124 | the prefix given to `process` is normalised before it replaces the kept one, and the result is the REST dispatch |
| RestUrl.ExampleSpecial | server/parsutil.py:98-100 | '/$foobar' is special '$foobar' |
| RestUrl.ExampleModel | server/parsutil.py:101-102 | '/foobar' is model 'foobar' |
| RestUrl.ExampleSpecialMethod | server/parsutil.py:103-104 | '/$foobar/zak/' is special method ('$foobar', 'zak') |
| RestUrl.ExampleModelMethod | server/parsutil.py:105-106 | '/foobar/zak/' is model method ('foobar', 'zak') |
| RestUrl.ExampleModelStrid | server/parsutil.py:107-108 | '/foobar/23/' is model strid ('foobar', '23'); the trailing '/' is ignored |
| RestUrl.ExampleModelStridMethod | server/parsutil.py:109-110 | '/foobar/23/blop' is model strid method ('foobar', '23', 'blop') |
| RestUrl.ExampleNothing | server/parsutil.py:111-113 | '' and '////////' give None |
| RestUrl.ExampleSession | server/parsutil.py:98-113 | the docstring session on one parser built with prefix '': all eight results |
| ClassPath.PathToClassnameAndId | server/jsonutil.py:33-48 | no match gives (None, ''); a match gives a non-empty word and an id of zero or more digits |
| ClassPath.FormatPathReads | server/jsonutil.py:32-33 | an optional '/', a word, an optional '/', digits and an optional final newline parse to the word and the digits; without the separating '/' the digits join the name |
| ClassPath.ReadsOnlyFormatted | server/jsonutil.py:33-47 | every path that matches is one of those forms, rebuilt from the parsed name and id |
| ClassPath.MatchesIff | server/jsonutil.py:33-48 | a path matches exactly when it has one of those forms |
| ClassPath.ExampleWithId | server/jsonutil.py:32-33 | '/Sample/1' gives ('Sample', '1') |
| ClassPath.ExampleBare | server/jsonutil.py:32-33 | 'Sample' gives ('Sample', '') |
| ClassPath.ExampleTrailingSlash | server/jsonutil.py:33 | '/Sample/' gives ('Sample', '') |
| ClassPath.ExampleDigitsInName | server/jsonutil.py:33 | '/Sample1' gives ('Sample1', ''): the greedy `\w+` takes the digits |
| ClassPath.NoMatchAfterId | server/jsonutil.py:33-48 | anything after the id other than one final newline means no match |
| ClassPath.ExampleSlashAfterId | server/jsonutil.py:33-48 | '/Sample/1/' gives (None, '') |
| ClassPath.ExampleLetterId | server/jsonutil.py:33-48 | '/Sample/x' gives (None, '') |
| ClassPath.ExampleDoubleSlash | server/jsonutil.py:33-48 | '/Sample//1' gives (None, '') |
| ClassPath.ExampleEmpty | server/jsonutil.py:33-48 | '' gives (None, '') |
| StringOrder.BelowTotal | server/restutil.py:85 | string order is total; with BelowReflexive, BelowAntisymmetric and BelowTransitive it is a total order |
| StringOrder.BelowTransitive | server/restutil.py:85 | string order is transitive |
| StringOrder.BelowAntisymmetric | server/restutil.py:85 | strings below each other are equal |
| StringOrder.Least | server/restutil.py:85 | a non-empty set of strings has a least element |
| StringOrder.Sorted | server/restutil.py:85 | `sorted` of a dict's keys lists every key once, in strictly increasing order |
| StringOrder.IncreasingUnique | server/restutil.py:155 | any strictly increasing listing of the keys is `sorted`'s |
| Registry.Get | server/restutil.py:81 | `dict.get` returns the entry for a present key and None otherwise |
| Registry.AddSpecial | server/restutil.py:68-71 | a new name gets a namespace holding only its '_n' tag, and other names keep theirs; a duplicate raises KeyError and changes nothing |
| Registry.AddSpecialValid | server/restutil.py:67-71 | registering a special keeps every namespace tagged with its own name |
| Registry.MethodOf | server/restutil.py:98-103 | a method lookup succeeds exactly when the special is registered and has the name |
| Registry.AddSpecialMethod | server/restutil.py:87-96 | an unknown special or a name already present raises KeyError; otherwise the method is found under its name and every other lookup is unchanged |
| Registry.NameTagKept | server/restutil.py:93-95 | the name '_n' is already taken in every namespace, so its tag cannot be replaced |
| Registry.AddSpecialMethodValid | server/restutil.py:87-96 | registering a method keeps every namespace tagged with its own name |
| Registry.AddClass | server/restutil.py:108-114 | the name defaults to the class's own name; a duplicate raises KeyError; otherwise the name leads to the class, the class records the name, and other names keep their classes |
| Registry.AddClassValid | server/restutil.py:108-114 | every recorded class name leads back to its class, and every registered class has a recorded name |
| Registry.PublicNames | server/restutil.py:129-130 | the names registered in bulk are those not starting with '_' |
| Registry.AddAll | server/restutil.py:127-131 | bulk registration keeps every name registered before with its class, and a failure names a class name that is registered |
| Registry.AddAllSucceeds | server/restutil.py:127-131 | bulk registration succeeds exactly when the public names are distinct and none is registered yet |
| Registry.AddAllRegisters | server/restutil.py:127-131 | after it, the registered names are the old ones plus the public names, each public member is found under its name, and old names keep their classes |
| Registry.AddAllValid | server/restutil.py:127-131 | bulk registration, even one stopped by a KeyError, keeps names and classes consistent |
| Registry.Registries.constructor | server/restutil.py:67-106 | both registries start empty |
| Registry.Registries.RegisterSpecialByName | server/restutil.py:67-71 | the new registry and the outcome are those of the registration step; the class registry is untouched |
| Registry.Registries.SpecialFromName | server/restutil.py:73-81 | the namespace registered under the name, or None |
| Registry.Registries.AllSpecialNames | server/restutil.py:83-85 | every registered special name once, in increasing order |
| Registry.Registries.RegisterSpecialMethod | server/restutil.py:87-96 | the new registry and the outcome are those of the method registration step |
| Registry.Registries.SpecialMethodFromName | server/restutil.py:98-103 | the entry under the name in the named special, or None when either is missing |
| Registry.Registries.RegisterClassByName | server/restutil.py:108-114 | the new class table and the outcome are those of the class registration step |
| Registry.Registries.RegisterAllModelClasses | server/restutil.py:127-131 | the loop's final table and outcome are those of the bulk registration, stopping at the first KeyError |
| Registry.Registries.ModelClassFromName | server/restutil.py:137-147 | the class registered under the name, or None |
| Registry.Registries.NameFromModelClass | server/restutil.py:149-151 | the name the class was last registered under, or None |
| Registry.Registries.AllModelClassNames | server/restutil.py:153-155 | every registered class name once, in increasing order |
| Registry.Registries.NameLeadsBack | server/restutil.py:113-151 | the name a class reports leads back to that class |

## Left out

- **Android platform APIs.** `AlarmManager`, `PendingIntent`, `Intent`, `Toast` and `Context` are left out. They are replaced by one alarm slot with its `SCHEDULED_AT` extra, and the settings are a map of strings.
- `Scheduler.AlarmService.GetBroadcast`: a matching pending intent is taken to exist exactly while an alarm is pending. One kept alive after its alarm fired or was cancelled, by the system or by other references, is not modelled.
- **The client's HTTP exchange.** `AppEngineClientImpl.postJSON` (login, URI building, the HTTP request) is a parameter: the client's reply to each post is a status or a failure.
- **The random source.** `sRandom` and the clock are left out; the random draw and the probe instant are parameters.
- **Time zones.** `Calendar` time zones and daylight saving are left out. Every day is 86 400 000 ms of local time.
- **Time parsing.** `SimpleDateFormat("HHmm")` parsing in `parseTime` is a parameter, a partial function from strings to instants.
- `JavaMath.ParseInt`: a leading '+' sign (accepted by `Integer.parseInt` since Java 7) is rejected, and so are non-ASCII digits (`Character.digit` accepts others, such as Arabic-Indic U+0664 or fullwidth digits); only '0' to '9' are digits here.
- **The "draws differ" test.** The statistical check in `testRandomInInterval` is not a property of one run.
- **Android packaging and UI.** `SyncService`, `SyncTask`, the network client, storage, serialisation, charts and UI classes are not part of this model.
- **Logging.** Log calls in `Synchronizer` are left out.
- **Regular-expression prefixes.** `UrlParser` prefixes are matched as literal strings. Regular-expression metacharacters in a prefix are not interpreted, and a prefix contributes no named groups. The generic dispatch takes arbitrary matchers, and the class docstring's `/(?P<foo>\w+)/` prefix is written out by hand.
- `UrlDispatch.NamedArgs`: groups map names to strings. A named group that takes no part in a match, which `groupdict()` reports as None and which `update` would let override the prefix's value, cannot be represented. None of the modelled patterns has an optional group.
- **Method overrides.** `RestUrlParser(**overrides)` is left out; the `do_*` builders are fixed.
- **Unknown keyword arguments.** The TypeError Python raises for an unexpected keyword argument to a callback is left out. A callback reads a missing group as ''.
- `Registry.Registries.RegisterSpecialMethod`: takes only a special's name. Passing the namespace dict itself, and aliasing of the returned dict, are left out.
- `Registry.Registries.SpecialMethodFromName`: takes only a special's name, for the same reason.
- `Registry.Registries.NameFromModelClass`: a subclass inheriting `_n` from a registered parent class through `getattr` is not modelled; classes are plain values.
- `Registry.Registries.RegisterAllModelClasses`: takes the `(name, class)` pairs that `inspect.getmembers(module, isModelClass)` yields. The module object, `getmembers`' order and the class test are inputs.
- **Module lookup by name.** `registerAllModelClassesFromModuleNamed` imports a module and is left out.
- **Broken method registries.** `_getter`, `_registerMethod`, `_methodByName` and `_allMethods` (restutil.py) unpack the result of a function that returns nothing, so they always fail. They are left out.
- **Datastore-dependent code.** Property conversions, the datastore helpers of restutil.py and jsonutil.py, the request handlers, cookies and test harnesses depend on App Engine and are left out.
- **Python 2 byte strings.** Strings are sequences of characters compared by code point.
