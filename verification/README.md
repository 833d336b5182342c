# Verified model of the block test suite's configuration and result processing

The suite starts a block proxy from command-line arguments of the form
`bp-Section-Key=Value`. It groups them into sections, writes them as INI text, reads that text
back when it reports performance, and turns the CPU masks found there into thread counts and a
"crossed" flag. Scripts then filter, sort and plot the reports. This project models that path and
some smaller algorithms of the suite, and proves what they promise. Where a promise does not hold
for every input, the exact condition under which it holds is proved.

| file | models |
|---|---|
| `Text.dfy`, `Sequences.dfy`, `Numbers.dfy`, `Expand.dfy`, `Strtok.dfy`, `Stdio.dfy` | the C and framework helpers: character search, trimming, `strtoul`/`strtol` (section 7.22.1.4 of ISO/IEC 9899:2011), `${NAME}` expansion, `strtok`, `fgets` on an open file |
| `Conf.dfy` | the configuration handler as a class with a growing vector of sections; printing and reading |
| `ConfRoundTrip.dfy`, `ConfCycles.dfy` | which configurations survive printing and reading, once and many times |
| `BlkProxyConf.dfy` | creating the configuration from arguments, held against a pure group-by |
| `Masks.dfy` | 64-bit CPU masks: the clear-lowest-bit loop and the operators as set operations |
| `MiLog.dfy`, `MiLogFacts.dfy` | logging a configuration; what the thread counts and the crossed flag mean |
| `EndToEnd.dfy` | arguments, file, reading and logging together |
| `Logflags.dfy`, `Features.dfy` | the log flag and RBD feature lists |
| `Template.dfy` | expanding an inventory template one read at a time |
| `NaturalSort.dfy`, `Perf.dfy`, `GapFill.dfy` | natural sorting, the table of a plot, and the gap-filling loop of the chart page |
| `PlotResult.dfy` | when a plot is returned, and what its headers and rows are |
| `PlotAxis.dfy` | the x points of a plot, and what the chart page makes of them |
| `RestartBlkProxy.dfy` | restarting the proxy with or without rebinding drivers |
| `CephParams.dfy` | sharing a storage among devices |

Results a maintainer may not expect:

- A configuration is read back only if each line can be told apart and fits into the 4096-byte
  read buffer. The value that comes back is led by the delimiter and a blank, so each further cycle
  needs two more characters a line, and no configuration with an item survives for ever
  (`ConfRoundTrip.ReadsBackIff`, `ConfCycles.SurvivesCyclesIff`).
- The header promises that a configuration generated by this API can be parsed. An item with a
  blank delimiter and no value is refused with an error (`ConfRoundTrip.EmptyValueRejected`);
  parsing succeeds exactly when each read is a section line with a "]" or holds a blank between
  visible characters (`ConfRoundTrip.PrintedParsesIff`, `ConfRoundTrip.FittingParsesIff`).
- Without a reactor mask the crossed flag reports whether there is a read or write CPU at all, not
  whether threads cross (`MiLogFacts.CrossedFlagIff`).
- Numbers with the same sign sort by their digits alone, so `-3` is drawn before `-5`
  (`PlotAxis.NegativesReversed`). The exact condition for x points in order is
  `PlotAxis.XPointsInOrderIff`.
- The gap-filling loop needs strictly increasing natural numbers (`GapFill.GapsFilledIff`). A plot
  gives them exactly when its x points are in order, none is negative and no two matching reports
  share a value (`PlotAxis.GaplessIff`).
- A storage of 1 GB passes the check for a positive size, but its device size is a wrapped number
  (`CephParams.OneGigabyte`, `CephParams.FairShareIff`).
- A comment in the template expander exempts the last line of a file from the length check. The
  code does not: a last line of more than 255 characters is read in two parts and refused, too
  (`Template.ExpandTemplateIff`, `Template.LongLastLine`).

## Model

| member | source | states |
|---|---|---|
| Conf.Config.SectionGet | block-ts/lib/tsapi-conf.c:14-28 | The loop finds the first section with the name, or none. |
| Conf.Config.Append | block-ts/lib/tsapi-conf.c:45-74 | The item ends the first section of that name and nothing else changes; without such a section the call fails and nothing changes. |
| Conf.Config.FlushToStr | block-ts/lib/tsapi-conf.c:107-139 | The nested loops build the text that `Print` gives for the sections. |
| Conf.Config.ReadFromFile | block-ts/lib/tsapi-conf.c:302-368 | The read loop leaves the status and the sections, also the partial ones of a failure, that `ReadChunks` gives for the reads of the file. |
| Conf.OptsRead | block-ts/lib/tsapi-conf.c:186-209 | Exactly the arguments with the prefix are taken, in order, without prefix and separator; none at all is an error. |
| Conf.OptsAppend | block-ts/lib/tsapi-conf.c:186-209 | Every argument is looked at by itself, in order. |
| Conf.OtherOpt | block-ts/lib/tsapi-conf.c:194-195 | An argument without the prefix is passed over. |
| Conf.OwnOpt | block-ts/lib/tsapi-conf.c:197 | From an argument with the prefix, what follows the prefix and one more character is taken. |
| Conf.ParseStringInverse | block-ts/lib/tsapi-conf.c:221-299 | Parsing succeeds with a section, key and value exactly when the string is their join, with no "-" in the section and no "=" in the key. |
| Stdio.ReadsPerLine | block-ts/lib/tsapi-conf.c:334 | A text needs at least one `fgets` a line, and exactly one a line if and only if each line has one newline and fits the buffer. |
| Stdio.ChunksExact | block-ts/lib/tsapi-conf.c:334 | The reads together are the text, and each stops at a newline, at the buffer size or at the end of the text, and nowhere else. |
| Text.StripExact | block-ts/lib/tsapi-conf.c:349 | Trimming takes white space off the two ends and nothing else. |
| ConfRoundTrip.HeaderRead | block-ts/lib/tsapi-conf.c:336-341 | A section line gives its name back exactly when no "]" cuts it short. |
| ConfRoundTrip.EntryRead | block-ts/lib/tsapi-conf.c:347-352 | An item line gives back the key and delimiter-blank-value exactly when the key is one visible word and the value ends visibly. |
| ConfRoundTrip.ReadsBackIff | block-ts/lib/tsapi-conf.c:302-368 | For every configuration: reading its text gives the same sections, keys and order with each value led by its delimiter and a blank, if and only if it is readable (names without "]", keys of one word not opening with "[", values ending visibly, no stray newlines, lines within the buffer, items only in the first section of a name). |
| ConfRoundTrip.ReadsIff | block-ts/lib/tsapi-conf.c:334-361 | Any text is read without an error if and only if it is empty, or its first read opens a section and each read is a section line with a "]" or holds a blank inside its ends; the error is always the same. |
| ConfRoundTrip.PrintedParsesIff | block-ts/lib/tsapi-conf.h:146-155 | The text of any configuration is read without an error if and only if each of its reads is accepted. |
| ConfRoundTrip.FittingParsesIff | block-ts/lib/tsapi-conf.c:107-139 | When every line fits a read, section lines are always accepted, so the item lines alone decide. |
| ConfRoundTrip.EmptyValueRejected | block-ts/lib/tsapi-conf.c:123-125 | The line of an item with a blank delimiter and no value is never accepted. |
| ConfRoundTrip.EmptyValueNotReadBack | block-ts/lib/tsapi-conf.c:347-352 | A concrete configuration that is written and whose reading fails. |
| ConfCycles.SurvivesCyclesIff | block-ts/lib/tsapi-conf.c:334-357 | n cycles all succeed as meant if and only if the configuration is readable and each item line leaves room for two characters a further cycle. |
| ConfCycles.CyclesAddBlanks | block-ts/lib/tsapi-conf.c:121-125 | n cycles of printing and reading succeed for a readable configuration with room in its lines, and with blank delimiters keep names, keys, order and every value up to leading blanks. |
| ConfCycles.NoEndlessCycles | block-ts/lib/tsapi-conf.c:308 | No configuration with an item survives as many cycles as the buffer has bytes. |
| BlkProxyConf.CreateConf | block-ts/lib/tsapi-blkproxy.c:812-926 | The loop over the arguments writes the text of the pure grouping of the settings, or stops with the first error and writes nothing. |
| BlkProxyConf.GroupByAdd | block-ts/lib/tsapi-blkproxy.c:854-881 | One turn of the loop, creating the section when missing and appending, is one more element of the group-by. |
| BlkProxyConf.NothingLost | block-ts/lib/tsapi-blkproxy.c:839-886 | The items with their sections are, as a multiset, the settings of the arguments. |
| BlkProxyConf.SectionsInOrder | block-ts/lib/tsapi-blkproxy.c:854-864 | Sections stand in order of first use, with distinct names, and none is empty. |
| BlkProxyConf.ItemsInOrder | block-ts/lib/tsapi-blkproxy.c:874-881 | The items of a section stand in the order of the arguments. |
| BlkProxyConf.PlainArgument | block-ts/lib/tsapi-blkproxy.c:844-852 | A joined argument asks for exactly its item; the value "none" asks for nothing. |
| BlkProxyConf.ArgumentsAskFor | block-ts/lib/tsapi-blkproxy.c:839-852 | A command line asks for exactly the settings that its `bp-Section-Key=Value` arguments are written from, in order and without those whose value is "none"; other arguments do not matter. |
| BlkProxyConf.FirstWrongString | block-ts/lib/tsapi-blkproxy.c:839-849 | The first configuration string that is wrong decides the error. |
| BlkProxyConf.HasHashIff | block-ts/lib/tsapi-blkproxy.c:867 | A value is expanded if and only if a `#` with a `{` right behind it occurs in it. |
| BlkProxyConf.ParameterArgument | block-ts/lib/tsapi-blkproxy.c:777-809 | A value with a `#{` gets each `#{NAME}` and `${NAME}` replaced by its parameter and keeps every other character; with a brace that is not closed it is an error. |
| BlkProxyConf.EveryValueCuts | block-ts/lib/tsapi-blkproxy.c:777-809 | Every value is such references and plain characters, with at most one open reference behind them. |
| Masks.CountBitsInMask | block-ts/lib/tsapi-blkproxy.c:972-988 | The count is the number of CPUs named by the mask in the text; a text that is no number is an error. |
| Masks.CountBits | block-ts/lib/tsapi-blkproxy.c:984-985 | The clear-lowest-bit loop ends and counts exactly the one bits of any 64-bit value. |
| Masks.OneCpuLess | block-ts/lib/tsapi-blkproxy.c:985 | `mask & (mask - 1)` names exactly one CPU less. |
| Masks.BitSumCounts | block-ts/lib/tsapi-blkproxy.c:963-971 | The bit-by-bit sum is the size of the set of CPUs. |
| Masks.WordBit | block-ts/lib/tsapi-blkproxy.c:978 | Bit k of the mask of a number n is the remainder of n / 2^k by two. |
| Numbers.HexRead | block-ts/lib/tsapi-blkproxy.c:978 | A number printed in base 16, in either case, behind blanks, a sign, `0x` and zeros is read as its value; a sign wraps it around, and one beyond an unsigned long is an error. |
| Numbers.DecimalRead | block-ts/lib/tsapi-blkproxy.c:1139-1140 | A number printed in base 10 behind blanks, a sign and zeros is read as its value, or refused when it is no long. |
| Numbers.NumeralOnly | block-ts/lib/tsapi-blkproxy.c:978 | Nothing but blanks, a sign, the base prefix and digits is read as a number. |
| Numbers.DigitIs | block-ts/lib/tsapi-blkproxy.c:978 | The digit characters are those of the two tables, each read as its place. |
| Masks.PrintedMask | block-ts/lib/tsapi-blkproxy.c:972-988 | A number printed as a mask names the CPUs at its one bits. |
| Masks.OrIsUnion | block-ts/lib/tsapi-blkproxy.c:1115-1116 | Joining masks with \| joins the sets of CPUs. |
| Masks.AndIsIntersection | block-ts/lib/tsapi-blkproxy.c:1117 | Combining masks with & intersects the sets of CPUs. |
| MiLog.MapMaskName | block-ts/lib/tsapi-blkproxy.c:997-1015 | The table loop maps "Cpumask" to Q, "R_Cpumask" to R, "W_Cpumask" to W, and nothing else to any of them. |
| MiLog.AddCrossedMasks | block-ts/lib/tsapi-blkproxy.c:1083-1126 | Logs whether ((W \| R) & Q) is non-zero, masks that are missing taking no part, or fails on a mask that is no number and logs nothing. |
| MiLog.AddMapVirtBlkSection | block-ts/lib/tsapi-blkproxy.c:1128-1179 | Logs the keys of a device section; what was logged before a failure stays. |
| MiLog.AddDevCount | block-ts/lib/tsapi-blkproxy.c:1190-1205 | Logs the number of sections with the device prefix. |
| MiLog.AddConfToMiLog | block-ts/lib/tsapi-blkproxy.c:1207-1256 | Appends to the log exactly the keys of the configuration, up to the first section that fails. |
| MiLog.MiReport | block-ts/lib/tsapi-fio.c:322-336 | Reads a configuration file and logs it; a file that cannot be read logs nothing. |
| MiLogFacts.MasksCollected | block-ts/lib/tsapi-blkproxy.c:1144-1159 | Collecting the masks of a section succeeds exactly when no kind is given twice, and then finds each. |
| MiLogFacts.CrossedCpus | block-ts/lib/tsapi-blkproxy.c:1111-1117 | The crossed mask names the CPUs of (R or W) and Q, or of R or W when there is no Q. |
| MiLogFacts.FlagByKeys | block-ts/lib/tsapi-blkproxy.c:1111-1121 | In terms of the keys: the crossed mask is not zero if and only if a CPU of "R_Cpumask" or "W_Cpumask" is also one of "Cpumask", or there is one at all when "Cpumask" is missing. |
| MiLogFacts.MasksInOrder | block-ts/lib/tsapi-blkproxy.c:1144-1159 | The masks are collected in the order of the items. |
| MiLogFacts.ItemsKeysUpTo | block-ts/lib/tsapi-blkproxy.c:1144-1159 | The thread counts of all items are logged, or those up to and with the first mask that was given before. |
| MiLogFacts.SectionsLogAppend | block-ts/lib/tsapi-blkproxy.c:1231-1253 | Sections are logged in order up to the first that fails, and one device type at most. |
| MiLogFacts.CrossedFlagIff | block-ts/lib/tsapi-blkproxy.c:1111-1121 | The flag says whether read or write threads share a CPU with the reactor if and only if a reactor mask is given or there is no read or write CPU. |
| MiLogFacts.CrossedWithoutReactor | block-ts/lib/tsapi-blkproxy.c:1112-1114 | A read mask alone is reported as crossed. |
| MiLogFacts.CrossedOrderIndependent | block-ts/lib/tsapi-blkproxy.c:1144-1161 | Any rearrangement of the items of a section gives the same flag or the same error. |
| MiLogFacts.ReadBackLog | block-ts/lib/tsapi-blkproxy.c:1207-1256 | The log of a read-back configuration is the log of the original one; blanks appear only in the key that shows the masks as text. |
| EndToEnd.CreatedConfigReadsBackIff | block-ts/lib/tsapi-fio.c:322-329 | The created file is read back as meant if and only if every single setting is readable. |
| EndToEnd.LogOfReadBack | block-ts/lib/tsapi-fio.c:322-336 | Creating, writing, reading and logging gives the status and keys that the arguments determine, up to the blanks in the mask text. |
| EndToEnd.ReportArguments | block-ts/lib/tsapi-blkproxy.c:812-926 | Creating the configuration, reading it back and logging it, run one after the other, give the status and keys of `ReportOf`. |
| EndToEnd.ReportFollowsArguments | block-ts/lib/tsapi-blkproxy.c:812-926 | From the arguments to the log of the read-back file, when every setting is readable: the report succeeds if and only if each device section has a number and gives each mask once and as a number; a Q, R or W thread count is then logged exactly when an argument gives such a mask under "Cpumask", "R_Cpumask" or "W_Cpumask" for the device, a crossed flag exactly when it is that of the arguments of a section of the device, the masks as text are those of the arguments in order, the device count is that of the different device sections, and at most one device type is logged, the first other section. |
| EndToEnd.ReportOfCommandLine | block-ts/lib/tsapi-fio.c:322-336 | The same for any command line with `bp-Section-Key=Value` arguments among others. |
| EndToEnd.PrintedDevice | block-ts/lib/tsapi-blkproxy.c:1139-1140 | A section "MapVirtioBlk" with a printed number behind it is the device of that number. |
| EndToEnd.PrintedThreads | block-ts/lib/tsapi-blkproxy.c:972-988 | A mask printed from a number gives as many threads as the number has one bits. |
| EndToEnd.MasksFromArguments | block-ts/lib/tsapi-blkproxy.c:1044-1081 | The masks logged as text are those of the arguments of a device section, in order. |
| EndToEnd.ThreadsFromArguments | block-ts/lib/tsapi-blkproxy.c:1017-1042 | The logged thread counts are those of the mask arguments, no more and no fewer. |
| EndToEnd.CrossedFromArguments | block-ts/lib/tsapi-blkproxy.c:1161-1166 | The logged crossed flags are those of the device sections among the arguments. |
| EndToEnd.LogSucceedsIff | block-ts/lib/tsapi-blkproxy.c:1139-1173 | Logging succeeds if and only if every device section has a device number, gives no kind of mask twice and gives only numbers. |
| EndToEnd.DevCountFromArguments | block-ts/lib/tsapi-blkproxy.c:1190-1205 | The logged count is the number of different device sections among the arguments. |
| EndToEnd.DevTypeOnce | block-ts/lib/tsapi-blkproxy.c:1231-1253 | At most one device type is logged: the first section that is no device. |
| EndToEnd.FirstOtherFromArguments | block-ts/lib/tsapi-blkproxy.c:854-864 | The first section that is no device is that of the first such argument. |
| Logflags.CreateOptionalLogflags | block-ts/lib/tsapi-blkproxy.c:196-238 | Appends `--logflag` and the token for each token of the list; no list appends nothing. |
| Logflags.LogflagsOfFields | block-ts/lib/tsapi-blkproxy.c:214-233 | For a list of any fields joined by commas the flags are the non-empty fields in order, so each flag reaches from comma to comma. |
| Logflags.LogflagsRoundTrip | block-ts/lib/tsapi-blkproxy.c:214-233 | Every list is its fields joined by commas; the options come in pairs with the non-empty fields as flags, which keep all characters but the commas, and rejoining them asks for the same options. |
| Strtok.TokensAreFields | block-ts/lib/tsapi-blkproxy.c:216-218 | The tokens of any text are its non-empty fields between delimiters. |
| Strtok.TokensAppend | block-ts/lib/tsapi-blkproxy.c:216-218 | A delimiter separates: the tokens on its two sides are found independently. |
| Features.GetFeatures | block-ts/lib/block-ts.c:109-151 | The returned word encodes the interpreted set; on a wrong token the caller's word is unchanged. |
| Features.FeatureNames | block-ts/lib/block-ts.c:334-347 | Each of the ten names is its feature, and no other text is one. |
| Features.DisabledWord | block-ts/lib/block-ts.c:82-151 | For each name, the word that "-NAME" leaves of 0xFF: that without the bit of the feature. |
| Features.DefaultWord | block-ts/lib/block-ts.c:116-126 | Without tokens the word is 0xFF. |
| Features.UnsetWord | block-ts/lib/block-ts.c:96-107 | UNSET_FEATURES alone gives 0. |
| Features.FirstWrongToken | block-ts/lib/block-ts.c:130-146 | The first wrong token decides the error: ESRCH for an unknown feature, EINVAL for an unknown keyword. |
| Features.ListMeaning | block-ts/lib/block-ts.c:130-146 | The list is accepted if and only if every token is valid; the result is empty if UNSET_FEATURES occurs, otherwise all but the disabled features. |
| Features.OrderAndRepetition | block-ts/lib/block-ts.c:130-146 | Lists with the same tokens, in any order and number, give the same result. |
| Features.NeverBeyondDefault | block-ts/lib/block-ts.c:116-126 | No list turns on a feature that is off by default. |
| Features.ClearBitIn | block-ts/lib/block-ts.c:82-94 | Clearing a bit of the word takes exactly that feature out of the set. |
| Features.BitOfEncode | block-ts/lib/block-ts.h:75-90 | A bit of the word is one exactly when its feature is in the set. |
| Template.ExpandTemplate | block-ts/lib/tsapi-inventory.c:92-153 | The read loop yields the expansion of the reads in order, or the first error. |
| Template.ExpandTemplateIff | block-ts/lib/tsapi-inventory.c:112-139 | With one-line parameters, expansion succeeds with a text if and only if every line fits one read and expands, and the text is the expansions of the lines in order. |
| Template.ExpandTemplateIsWhole | block-ts/lib/tsapi-inventory.c:112-139 | Expanding read by read equals expanding the whole template. |
| Template.LongLastLine | block-ts/lib/tsapi-inventory.c:112-139 | A single plain line of 256 or more characters without a newline is refused. |
| Template.LinesExact | block-ts/lib/tsapi-inventory.c:112-139 | The lines that the other rows speak of are the text, cut behind each newline. |
| NaturalSort.SplitIsExact | scripts/perf.py:56-67 | The split loses nothing and alternates texts without digits and numerals, beginning and ending with a text. |
| NaturalSort.SortKeyAlternates | scripts/perf.py:65-67 | Sort keys alternate texts and integers, beginning and ending with a text. |
| NaturalSort.TotalPreorder | scripts/perf.py:69-71 | Any two keys can be compared without a type error; the order is a total preorder with ties exactly for equal keys. |
| NaturalSort.SortedIsStableSort | scripts/perf.py:69-71 | The sorted reports are an ordered rearrangement with ties in their old order. |
| NaturalSort.StableSortUnique | scripts/perf.py:69-71 | There is only one stable ordered rearrangement, so any correct library sort gives it. |
| NaturalSort.NumeralsByValue | scripts/perf.py:65-67 | Decimal numerals sort by their values. |
| NaturalSort.SignedBefore | scripts/perf.py:65-67 | Numerals without a sign sort before those with a plus and these before those with a minus; with the same sign the digits decide. |
| NaturalSort.PrintedBefore | scripts/perf.py:56-71 | Texts with the same digit-free start and printed numbers behind it sort by the numbers. |
| NaturalSort.PrintedSigned | scripts/perf.py:88 | A number printed behind a sign is read back as its value. |
| NaturalSort.StrLessIff | scripts/perf.py:69-71 | A text is before another if and only if it ends first or has the smaller character where they part. |
| NaturalSort.KeyLessIff | scripts/perf.py:69-71 | A key is before another if and only if it ends first or has the smaller element where they part. |
| Perf.Plotter.ReportGetPoint | scripts/perf.py:192-246 | Returns the point of the report as it was before and leaves the report without the popped keys. |
| Perf.Plotter.PlotOne | scripts/perf.py:22-99 | Filtering, sorting and the loop over mutated reports give the plot that the reports determine as they were before the call, also when an object occurs twice. |
| Perf.FilteredIsKept | scripts/perf.py:47-51 | Filtering key by key keeps exactly the reports that match every key, in order. |
| Perf.KeptIff | scripts/perf.py:47-51 | A report is kept exactly when it is given and its values equal those of the filter, whatever the case. |
| Perf.FilteredReturnedIff | scripts/perf.py:47-51 | Filtering succeeds if and only if no report that matches the filter keys before one misses that key. |
| PlotResult.PlotReturnedIff | scripts/perf.py:47-99 | A plot is returned if and only if the filter fits and all matching reports have exactly one value under the name, the axis among their shown keys, readable numbers, and the same headers. |
| PlotResult.RowsAre | scripts/perf.py:192-246 | The headers are the axis, the measurement with units and multiplier, and all shown keys; every row is the x text, the value and all shown values of its report. |
| PlotResult.ShownIsVisible | scripts/perf.py:228-233 | What is left after the pops is all keys but the command and the filter keys, in their order. |
| PlotResult.MeasuredIff | scripts/perf.py:212-226 | A value is taken if and only if it is the only one of the only result with the name. |
| Perf.RowsAreSorted | scripts/perf.py:69-71 | The rows are the matching reports, rearranged into the stable natural order of the x axis. |
| Perf.TableAligned | scripts/perf.py:76-99 | A returned plot has a row, an x and a y for each matching report; each cell from column 2 on is that report's value under the shared header, and no filter key or command is shown. |
| PlotAxis.XPointsInOrderIff | scripts/perf.py:69-88 | On an axis of numerals with optional signs the x points of a plot never decrease if and only if no matching report has a minus sign and none with a plus sign is below one without, or a minus sign occurs and all values are the same. |
| PlotAxis.XPointsNondecreasing | scripts/perf.py:88 | On an axis of decimal numerals the x points never decrease. |
| PlotAxis.NegativesReversed | scripts/perf.py:65-71 | A concrete pair of reports whose plot has the x points -3 and -5 in this order. |
| PlotAxis.GaplessIff | scripts/perf_page.py:223-228 | The chart page makes the x points of a plot 0..max if and only if they are in order, none is negative, and no two matching reports share a value. |
| PlotAxis.SharedXLeftOver | scripts/perf_page.py:223-228 | Two reports with the same x value: the second point is left over behind the range. |
| GapFill.Plot.FillGaps | scripts/perf_page.py:223-228 | The splice loop ends and leaves the two arrays that `FillX` and `FillY` give. |
| GapFill.GapsFilledIff | scripts/perf_page.py:223-228 | The x points become 0..max if and only if the given ones are strictly increasing natural numbers. |
| GapFill.FilledParts | scripts/perf_page.py:223-228 | For any points the arrays stay equally long, and points without a place are left over in order behind the range. |
| GapFill.PairsKept | scripts/perf_page.py:223-228 | Every given pair stands at the index of its x, and every other index is null. |
| RestartBlkProxy.Setup.RunTest | block-ts/blk-proxy/config/restart_blk_proxy.c:95-167 | Passes exactly when there is no iteration or the proxy runs and, with rebinding, no driver is empty; drivers and proxy end as they began; the stops and starts that happened are one restart an iteration; the autorestart value is restored only after a single iteration. |
| RestartBlkProxy.Setup.Iteration | block-ts/blk-proxy/config/restart_blk_proxy.c:97-156 | One turn of the loop gives every device its driver back and leaves the proxy running, or fails and changes nothing. |
| RestartBlkProxy.RestartsAre | block-ts/blk-proxy/config/restart_blk_proxy.c:106-156 | Stops and starts alternate, and with rebinding no device is bound at any of them. |
| RestartBlkProxy.Setup.BindAllDrivers | block-ts/blk-proxy/config/restart_blk_proxy.c:28-43 | Binds device i to name i and touches no other device. |
| RestartBlkProxy.Setup.UnbindAllDrivers | block-ts/blk-proxy/config/restart_blk_proxy.c:45-59 | Unbinds as many devices as there are names and touches no other. |
| CephParams.PrepareParams | block-ts/lib/tsapi-ceph.c:595-694 | Refuses a storage that is not positive, whatever the count; otherwise fills exactly the first slots with the device size. |
| CephParams.FairShareIff | block-ts/lib/tsapi-ceph.c:624-685 | For one to three devices: the sizes and the reserve fit, less than 1024 MB a device is lost and the right slots are filled, if and only if the storage is at least the reserve and the size is an int. |
| CephParams.OneGigabyte | block-ts/lib/tsapi-ceph.c:624-631 | A concrete accepted storage whose device size is negative. |

## Left out

- Input and output: fetching, opening and copying files, JSON conversion and printing of the configuration, the Configurator, RPC and job calls. A file is its text; binding drivers and starting the proxy are state updates that succeed.
- Allocation failures, missing terminators of copied keys, and buffers in general: strings are sequences, vectors grow without bound and appends succeed. PATH_MAX is taken as 4096.
- Conf.ParseString: models the call with an empty section name buffer, as its caller makes it.
- Conf.OptsRead: an argument that is the bare prefix is read past its end by the code; the model takes the empty string.
- Expand.ExpandVars: `te_expand_kvpairs` is not part of this repository; every `${NAME}` is replaced by what a parameter function gives for the text between the braces, and a brace that is never closed is an error.
- BlkProxyConf.CreateConf: the value is used as a format string before expansion; a "%" in it is not modelled.
- MiLog.AddMask: `te_kvpair_add` is not part of this repository; adding a key that is there already is an error (EEXIST).
- MiLog.Logger: measurement keys are structured values, not formatted text, and logging them succeeds.
- Template.ExpandTemplate: a read whose expansion is empty makes the code look before its buffer; the model takes it as not ending a line.
- NaturalSort.Split: digits are the ten ASCII digits.
- PlotAxis.XPointsInOrderIff: `int` also accepts blanks around a number, underscores and digits of other scripts; axes with such texts are not covered.
- Perf.Builtins: `lower`, `int`, `float`, `float.fromhex` and `str` are parameters; measured values are text.
- CephParams.PrepareParams: with a positive storage a device count of 0 is excluded, as the code divides by it; the OSD size in floating point and the other inventory entries are not modelled.
- RestartBlkProxy.Setup.RunTest: the set of devices is fixed, and the cleanup of a test that ends before it reads the autorestart value, which uses an uninitialised value, is not modelled.
- Timeouts, tool wrappers, prologues and epilogues, shell scripts, plotting and page generation, artifactory access and option parsing.
