# OpenAppFilter: a verified model

A Dafny model of the algorithms inside OpenAppFilter: the kernel module that
recognises applications in traffic (`luci-app-oaf/oaf/src`) and the daemon that
feeds it and keeps its statistics (`luci-app-oaf/open-app-filter/src`). Code that
changes things in place is modelled by classes, arrays and loops, each proved
against a specification; the theorems are about those specifications and hold
for all inputs and all runs.

| file | what it models |
|---|---|
| `Text`, `Strings`, `MachineWords` | suffixes and occurrences; the C string routines the parsers use; word sizes |
| `Features` | features, flows and the port, protocol and host conditions |
| `AcSpec`, `AhoCorasick` | the host automaton: trie, fail links, scan, against a scan of all features |
| `Regex`, `RegexSyntax`, `RegexTheorem`, `RegexEdges` | the pattern engine: compiler, backtracking matcher, language, patterns that do not compile |
| `Matching`, `MatchingTheorem` | matching one flow in stages, against trying every feature |
| `Crc`, `Container`, `Counters`, `ContainerVectors` | the encrypted feature file, its block counters, known answers |
| `Mark`, `MarkPackets`, `AppFilter`, `Conntrack` | the verdict cached in a connection's mark, what one packet does to it, the rules, the connection table |
| `CustomApps`, `CustomText`, `CustomForms`, `CustomRoundTrip`, `CustomFile`, `CustomSubmit` | user-defined applications: ids, text form and its spellings, file, the way of a submission |
| `Dns`, `DnsQuery` | the questions of a DNS message, whole queries on the wire |
| `Sessions`, `SessionRecords` | online sessions and the records they leave |
| `Hours`, `HoursMeaning`, `Ring` | hours of the day, the session history |
| `Md5`, `Md5Suite` | the daemon's digest against RFC 1321 and its test suite |
| `Json`, `JsonTexts`, `JsonPrinted` | the kernel's JSON printer and parser, against the texts of RFC 8259 |
| `JsonRoundTrip`, `JsonCounts`, `JsonExact` | what survives printing and parsing |
| `Minify`, `MinifyTexts`, `MinifyTheorem` | the kernel's JSON minifier, on any text and on printed trees |

`dafny verify dfyconfig.toml` checks everything.

## Where the code differs from what it is meant to do

- The automaton takes every host text for literal that does not have all of a
  leading `^`, a `*` and a `$`; the plain scan gives it to the pattern engine. The
  staged match misses exactly the bare hosts that match without occurring, and
  reports exactly in addition those that occur without matching
  (`MatchingTheorem.CaughtIff`, `StagedAgreesIff`). Only texts without dots,
  metacharacters and effective anchors are safe on every host
  (`ReadsAsItselfIff`); `^a$` is one that is missed.
- `regexp_match` answers -1 for a pattern that does not compile and its callers
  test for non-zero, so such a pattern matches every host (`GenuineIff`). The
  patterns are those with a class that is not closed or has a dash first or last
  (`RegexEdges.BadPatternIff`).
- A drop is never lifted, whatever the rules say later, exactly while the
  connection's id is at most 1000: unclassified connections and built-in protocols
  (`Mark.DropIsFinalIff`). Rule changes are obeyed exactly for ids above 1000
  (`Mark.ObeysIff`).
- The check of application names lets line ends through; a submission with one is
  written but cannot be read back (`CustomSubmit.SubmissionSurvivesIff`).
- The JSON parser reads the sign of a number and then ignores it, the printer drops
  control characters without an escape, and printed children are used as format
  strings, so percent signs inside arrays and objects do not survive. Trees
  round-trip exactly when they contain none of these (`JsonExact.RoundTripIff`).
- The minifier looks one character behind to recognise an escaped quote, and after a
  string that ends in a backslash it is on the wrong side of the quotes until a string
  that holds a quote and does not end in one. The meaning is kept exactly when no
  space and no slash comes up meanwhile in the bare part of a string
  (`MinifyTheorem.MinifyKeepsMeaningIff`).
- An hour's row keeps eight applications. It never shows more than an application's
  capped seconds (`Hours.RowNeverOvercounts`), and it accounts for all of them exactly
  when no more than eight were active (`Hours.AccountsIffFewApps`).

## Model

| member | source | states |
|---|---|---|
| AcSpec.NaiveScanMeaning | luci-app-oaf/oaf/src/fwx_main.c:593-636 | a scan finds nothing exactly when no passing pattern occurs in the host; otherwise its answer ends earliest, is the longest ending there, and is the first inserted of its text |
| AcSpec.BestSuffixMeaning | luci-app-oaf/oaf/src/fwx_main.c:617-633 | at one end position the answer is the longest passing pattern that is a suffix, first inserted among equal texts, or none is |
| AcSpec.FirstWithMeaning | luci-app-oaf/oaf/src/fwx_main.c:620-631 | among features of one text the first that passes the basic condition is taken |
| AcSpec.JumpKeepsBounds | luci-app-oaf/oaf/src/fwx_main.c:610-614 | a jump along a fail link keeps every trie text that could still be extended in reach, and gets strictly shallower |
| AcSpec.ChildIsLongest | luci-app-oaf/oaf/src/fwx_main.c:606-615 | when a child for the next character is found, it is the longest trie text that is a suffix of what was read |
| AcSpec.RootIsLongest | luci-app-oaf/oaf/src/fwx_main.c:610-615 | when even the root has no such child, nothing but the empty text is a suffix |
| AcSpec.GapIsSilent | luci-app-oaf/oaf/src/fwx_main.c:618-633 | no pattern lies between a node and its fail link, so the report walk may skip the gap |
| AcSpec.OutputsAgree | luci-app-oaf/oaf/src/fwx_main.c:426-442 | walking one node's output list is the first-inserted choice among all features with that text |
| AhoCorasick.UrlAc.FindNext | luci-app-oaf/oaf/src/fwx_main.c:386-398 | finds the child for a character exactly when the extended text is in the trie, and returns that node |
| AhoCorasick.UrlAc.GetOrCreateNext | luci-app-oaf/oaf/src/fwx_main.c:400-424 | returns the node of the extended text, adding at most that one text to the trie and keeping every other node |
| AhoCorasick.UrlAc.InsertPattern | luci-app-oaf/oaf/src/fwx_main.c:474-496 | appends the feature to the outputs of its text, creating the missing nodes; an empty text is ignored |
| AhoCorasick.UrlAc.Free | luci-app-oaf/oaf/src/fwx_main.c:444-472 | leaves an empty automaton that is not ready |
| AhoCorasick.UrlAc.Rebuild | luci-app-oaf/oaf/src/fwx_main.c:545-582 | afterwards the automaton is ready and holds, in list order, exactly the literal host features |
| AhoCorasick.UrlAc.WalkFails | luci-app-oaf/oaf/src/fwx_main.c:523-536 | the fail walk of the construction ends at the longest proper suffix of the child's text that is in the trie |
| AhoCorasick.UrlAc.QueueRootChildren | luci-app-oaf/oaf/src/fwx_main.c:514-518 | the root's children are queued once each with the root as fail link |
| AhoCorasick.UrlAc.ExpandNode | luci-app-oaf/oaf/src/fwx_main.c:521-538 | every child of the dequeued node is linked and queued, and the queue stays breadth first and within its array |
| AhoCorasick.UrlAc.BuildFailLinks | luci-app-oaf/oaf/src/fwx_main.c:498-543 | afterwards every node's fail link is its longest proper suffix in the trie, and every node but the root was queued exactly once |
| AhoCorasick.LinkAt | luci-app-oaf/oaf/src/fwx_main.c:498-543 | a correct fail link is strictly shallower than its node, which is what ends both fail walks |
| AhoCorasick.NothingShallowMissing | luci-app-oaf/oaf/src/fwx_main.c:520-539 | breadth-first order: all nodes shallower than the head of the queue have been queued |
| AhoCorasick.QueueExhausted | luci-app-oaf/oaf/src/fwx_main.c:520-539 | when the queue runs out all nodes are linked and were queued once |
| AhoCorasick.QueueFits | luci-app-oaf/oaf/src/fwx_main.c:509-539 | the queue never holds as many entries as there are nodes, so it stays inside its array |
| AhoCorasick.UrlAc.Advance | luci-app-oaf/oaf/src/fwx_main.c:605-615 | one character: the state becomes the longest suffix in the trie; jumps are paid for by lost depth |
| AhoCorasick.UrlAc.Report | luci-app-oaf/oaf/src/fwx_main.c:617-633 | the output walk over fail links returns what trying all suffixes of the text read would |
| AhoCorasick.UrlAc.MatchText | luci-app-oaf/oaf/src/fwx_main.c:593-636 | the automaton scan returns what the reference scan returns, and makes at most one fail jump per character read |
| Features.MatchPort | luci-app-oaf/oaf/src/fwx_main.c:894-929 | a port list with a negated range is a list of exclusions; otherwise an empty list or any covering range allows |
| Features.RejectedIff | luci-app-oaf/oaf/src/fwx_main.c:335-351 | a flow fails a feature iff protocol or source port differ, a destination port is excluded, or nothing is excluded and it is not in a list that is not empty |
| Features.RegexHostIff | luci-app-oaf/oaf/src/fwx_main.c:353-369 | a host goes to the pattern engine iff it starts with `^` and holds a `*` and a `$` |
| Regex.HereRepeats | luci-app-oaf/oaf/src/regexp.c:166-241 | a quantified token matches here iff some allowed number of repetitions is followed by a match of the rest |
| Regex.MatchStar | luci-app-oaf/oaf/src/regexp.c:166-173 | the shortest-first star loop succeeds iff some number of repetitions works |
| Regex.MatchStarLongest | luci-app-oaf/oaf/src/regexp.c:175-185 | the longest-first star loop succeeds iff some number of repetitions works |
| Regex.MatchPlus | luci-app-oaf/oaf/src/regexp.c:187-195 | the shortest-first plus loop succeeds iff some positive number of repetitions works |
| Regex.MatchPlusLongest | luci-app-oaf/oaf/src/regexp.c:197-208 | the longest-first plus loop succeeds iff some positive number of repetitions works |
| Regex.MatchQues | luci-app-oaf/oaf/src/regexp.c:210-221 | the optional atom succeeds iff it works absent or once |
| Regex.MatchHere | luci-app-oaf/oaf/src/regexp.c:229-241 | the backtracking matcher decides the token semantics at a position, for either strategy |
| Regex.MatchTokens | luci-app-oaf/oaf/src/regexp.c:249-272 | the outer loop tries every start, or only the first under a leading anchor |
| RegexSyntax.CompileClass | luci-app-oaf/oaf/src/regexp.c:113-140 | the bracket loop reads the class the reference reader describes, ranges and negation included |
| RegexSyntax.Compile | luci-app-oaf/oaf/src/regexp.c:61-157 | the compile loop produces the token list of the reference lexer; the empty pattern is bad |
| RegexSyntax.RegexpMatch | luci-app-oaf/oaf/src/regexp.c:249-272 | compile then match: -1 for a bad pattern, otherwise whether the tokens are found |
| RegexTheorem.LexesPattern | luci-app-oaf/oaf/src/regexp.c:61-157 | compiling the text of any valid pattern tree gives exactly the tree's tokens |
| RegexTheorem.RunMeaning | luci-app-oaf/oaf/src/regexp.c:41-49 | what one item of a pattern matches is a run of characters of its atom, of an allowed length |
| RegexTheorem.PartsCharsMeaning | luci-app-oaf/oaf/src/regexp.c:41-49 | a class lists exactly the characters of its single characters and ranges |
| RegexTheorem.HereMeaning | luci-app-oaf/oaf/src/regexp.c:229-241 | the token semantics is the pattern's language: a prefix of the text splits into one piece per item |
| RegexTheorem.RegexpDecidesLanguage | luci-app-oaf/oaf/src/regexp.c:166-272 | for every valid pattern and text the result is 1 iff the text has a part in the pattern's language, anchors respected, and 0 otherwise, whatever the strategy flag |
| Matching.MatchByUrl | luci-app-oaf/oaf/src/fwx_main.c:1608-1660 | host and request patterns are matched against the flow's parsed host and url |
| Matching.FindBytes | luci-app-oaf/oaf/src/fwx_main.c:1549-1559 | finds the search string iff it occurs in the payload |
| Matching.MatchByPos | luci-app-oaf/oaf/src/fwx_main.c:1561-1606 | all position checks hold, counted from the end when negative, and the search string occurs |
| Matching.MatchOne | luci-app-oaf/oaf/src/fwx_main.c:1662-1692 | one feature matches: basic condition, then url, positions or nothing more |
| MatchingTheorem.FlowHostIff | luci-app-oaf/oaf/src/fwx_main.c:285-310 | the host of a flow is the first 63 characters of what TLS, or without it HTTP, names, unless that is an address |
| MatchingTheorem.OneMatchesIff | luci-app-oaf/oaf/src/fwx_main.c:1561-1692 | which fields of a feature are looked at: texts in host and request, positions and search string only without texts, and nothing at all without any of them |
| MatchingTheorem.QuicIff | luci-app-oaf/oaf/src/fwx_main.c:1695-1731 | a UDP payload of eight bytes or more is QUIC iff its first bit is set and the version, high byte first, is 0, 1, 6b3343cf or from ff000000 on, or the port is 443 |
| Matching.FeatureTable.Add | luci-app-oaf/oaf/src/fwx_main.c:733-802 | a feature goes to the head of the list, and exactly a literal host makes the automaton stale |
| Matching.FeatureTable.Clean | luci-app-oaf/oaf/src/fwx_main.c:1212-1227 | list and automaton are emptied |
| Matching.FeatureTable.LoadDone | luci-app-oaf/oaf/src/fwx_main.c:1241-1246 | a stale automaton is rebuilt from the whole list |
| Matching.FeatureTable.MatchUrlFeature | luci-app-oaf/oaf/src/fwx_main.c:638-672 | the first stage scans the flow's host with the automaton and agrees with the reference scan over the current list |
| Matching.FeatureTable.MatchNonUrlFeature | luci-app-oaf/oaf/src/fwx_main.c:708-730 | the fallback returns the first feature that is not a bare literal host and matches |
| Matching.FeatureTable.MatchFeature | luci-app-oaf/oaf/src/fwx_main.c:1733-1790 | QUIC first, then automaton, then fallback |
| MatchingTheorem.DottedHits | luci-app-oaf/oaf/src/fwx_main.c:1608-1660 | the regex engine on a host of plain characters and dots finds the parts that agree but for the dots |
| MatchingTheorem.AutomatonHitMeaning | luci-app-oaf/oaf/src/fwx_main.c:638-672 | the automaton stage succeeds iff a feature it holds occurs in the host and passes its basic condition |
| MatchingTheorem.FirstFallbackMeaning | luci-app-oaf/oaf/src/fwx_main.c:708-730 | the fallback succeeds iff some feature it does not skip matches |
| MatchingTheorem.StagedCatches | luci-app-oaf/oaf/src/fwx_main.c:1733-1790 | for any features: the staged match answers iff it catches one, by the automaton or by the fallback, and answers with one it catches |
| MatchingTheorem.CaughtIff | luci-app-oaf/oaf/src/fwx_main.c:1608-1790 | what is matched but not caught is a bare literal host that does not occur; what is caught but not matched occurs without matching |
| MatchingTheorem.StagedAgreesIff | luci-app-oaf/oaf/src/fwx_main.c:1608-1790 | staged match and plain scan agree on every list drawn from some features iff none of them is missed and none is extra |
| MatchingTheorem.StagedAgainstScan | luci-app-oaf/oaf/src/fwx_main.c:1608-1790 | with dots as the only metacharacters: a staged hit is a hit of the plain scan, and the plain scan hits iff the staged match does or a dot stood for another character |
| MatchingTheorem.StagedIsScan | luci-app-oaf/oaf/src/fwx_main.c:1608-1790 | with literal hosts the staged match succeeds iff some feature matches |
| MatchingTheorem.WildcardIsMissed | luci-app-oaf/oaf/src/fwx_main.c:708-720 | a feature matching only through a dot is missed by the staged match and found by the plain scan |
| MatchingTheorem.DotCostsAMatch | luci-app-oaf/oaf/src/fwx_main.c:353-369 | every dot of a literal host is a lost match: put any other character in its place |
| MatchingTheorem.AnchoredHostIsMissed | luci-app-oaf/oaf/src/fwx_main.c:353-369 | the host pattern `^a$` counts as literal and is missed on the host it matches |
| MatchingTheorem.ReadsAsItselfIff | luci-app-oaf/oaf/src/fwx_main.c:353-369 | the pattern engine and a search for the text agree on every host iff the text is literal: no dot, no metacharacter, no `^` in front and no `$` at the end |
| MatchingTheorem.GenuineIff | luci-app-oaf/oaf/src/fwx_main.c:1608-1660 | every reported match is one that was found iff the pattern is not empty and compiles; any other pattern matches every text |
| MatchingTheorem.BadPatternHitsEverything | luci-app-oaf/oaf/src/fwx_main.c:1608-1660 | a host pattern with a spoilt class matches every flow that names a host |
| MatchingTheorem.UnclosedClassIsBad | luci-app-oaf/oaf/src/regexp.c:113-140 | a single opening bracket is such a pattern |
| RegexEdges.BadClassIff | luci-app-oaf/oaf/src/regexp.c:113-140 | a class is refused iff, read character by character and range by range, it is not closed or a dash stands first or last |
| RegexEdges.BadPatternIff | luci-app-oaf/oaf/src/regexp.c:61-157 | a pattern does not compile iff at some place where a token begins there is a bracket with such a class |
| RegexEdges.ShortMatch | luci-app-oaf/oaf/src/regexp.c:229-241 | whatever matches has a match with at most one character per atom |
| Crc.DivideByte | luci-app-oaf/open-app-filter/src/fwx_feature.c:70-74 | the eight-step inner loop divides one byte |
| Crc.MaskIsChoice | luci-app-oaf/open-app-filter/src/fwx_feature.c:73 | the masked xor is the conditional xor of the polynomial |
| Crc.FeatureCrc32 | luci-app-oaf/open-app-filter/src/fwx_feature.c:65-77 | the loop computes the checksum of section 8 of RFC 1952 bit by bit |
| Crc.BitStepInjective | luci-app-oaf/open-app-filter/src/fwx_feature.c:72-74 | one division step loses no information |
| Crc.RegisterInjective | luci-app-oaf/open-app-filter/src/fwx_feature.c:69-75 | over the same bytes different registers stay different |
| Crc.FourBytesAtOnce | luci-app-oaf/open-app-filter/src/fwx_feature.c:69-75 | four bytes fed one by one are one 32-bit word xored in and 32 steps |
| Crc.FourBytesInjective | luci-app-oaf/open-app-filter/src/fwx_feature.c:69-75 | different groups of up to four bytes lead to different registers |
| Crc.BurstDetected | luci-app-oaf/open-app-filter/src/fwx_feature.c:65-77 | texts that differ only inside four consecutive bytes have different checksums |
| Crc.CheckValue | luci-app-oaf/open-app-filter/src/fwx_feature.c:65-77 | the checksum of the digits 1 to 9 is the check value of CRC-32, cbf43926 |
| Container.XteaEncryptBlock | luci-app-oaf/open-app-filter/src/fwx_feature.c:79-96 | the round loop computes the cipher of 32 double rounds |
| ContainerVectors.PublishedVector | luci-app-oaf/open-app-filter/src/fwx_feature.c:79-96 | under the key 00 01 .. 0f the text ABCDEFGH becomes 497df3d0 72612cb5, as published for XTEA |
| Container.RoundsInjective | luci-app-oaf/open-app-filter/src/fwx_feature.c:79-96 | the cipher is injective |
| Container.Le32RoundTrip | luci-app-oaf/open-app-filter/src/fwx_feature.c:34-57 | reading a written 32-bit field gives it back |
| Container.Le64RoundTrip | luci-app-oaf/open-app-filter/src/fwx_feature.c:40-63 | reading a written 64-bit field gives it back |
| Container.XteaCtrCrypt | luci-app-oaf/open-app-filter/src/fwx_feature.c:98-117 | the in-place loop xors each byte with its place in the counter-mode key stream (section 6.5 of NIST SP 800-38A) |
| Container.CryptTwice | luci-app-oaf/open-app-filter/src/fwx_feature.c:98-117 | crypting twice is the identity |
| Container.StreamBlockInjective | luci-app-oaf/open-app-filter/src/fwx_feature.c:98-117 | different counters give different key-stream blocks |
| Counters.CounterMeaning | luci-app-oaf/open-app-filter/src/fwx_feature.c:98-117 | block j uses the nonce plus j modulo two to the 64 |
| Counters.StreamNeverRepeats | luci-app-oaf/open-app-filter/src/fwx_feature.c:98-117 | no two of the first two to the 64 blocks of a file share a key-stream block |
| ContainerVectors.ShippedFields | luci-app-oaf/open-app-filter/src/fwx_feature.c:178-201 | the header of the feature file in the repository passes the checks and holds these length, checksum and nonce fields |
| ContainerVectors.ShippedFileDecrypts | luci-app-oaf/open-app-filter/src/fwx_feature.c:98-117 | under its nonce the first eight bytes of that file decrypt to `#version` |
| Container.DecryptFile | luci-app-oaf/open-app-filter/src/fwx_feature.c:178-212 | header checks, decryption and checksum in the code's order |
| Container.DecodeMeaning | luci-app-oaf/open-app-filter/src/fwx_feature.c:178-212 | the decoder returns a text iff the file is a well-formed container of that text |
| Container.DecodesWhatWasBuilt | luci-app-oaf/open-app-filter/src/fwx_feature.c:178-212 | a correctly built file decodes to its text |
| Container.DamageIsRefused | luci-app-oaf/open-app-filter/src/fwx_feature.c:178-212 | a file damaged only inside four consecutive body bytes is refused |
| Mark.FieldsIndependent | luci-app-oaf/oaf/src/fwx_main.c:72-122 | setting one flag or the id changes that field and no other |
| Mark.Connection.MarkUpdate | luci-app-oaf/oaf/src/fwx_main.c:83-89 | the masked bits become the value's and the others stay |
| Mark.MaskedStore | luci-app-oaf/oaf/src/fwx_main.c:83-89 | the stored mark is the only one that takes the masked bits from the value and the rest from before |
| Mark.Connection.SetFlag | luci-app-oaf/oaf/src/fwx_main.c:111-114 | a flag is set or cleared |
| Mark.Connection.ActionChanged | luci-app-oaf/oaf/src/fwx_main.c:2171-2191 | true iff the rules changed recently and their answer differs from the action |
| Mark.Connection.Handle | luci-app-oaf/oaf/src/fwx_main.c:2411-2532 | one packet does to the mark and answers what the step function says |
| Mark.Connection.StoreMatch | luci-app-oaf/oaf/src/fwx_main.c:2499-2509 | a match stores id, DNS and ignore flags and keeps the drop flag |
| Mark.Connection.InspectNow | luci-app-oaf/oaf/src/fwx_main.c:2490-2532 | inspection stores its result and the verdict of rules and client rule |
| Mark.ClassifiedRun | luci-app-oaf/oaf/src/fwx_main.c:2411-2461 | from a classified connection on: the id never changes, inspection never repeats, and each verdict is the last one the rules gave |
| Mark.VerdictIsCached | luci-app-oaf/oaf/src/fwx_main.c:2411-2461 | in any run, once a packet leaves a valid id every later packet sees that id and the cached verdict |
| Mark.RecentChangeIsObeyed | luci-app-oaf/oaf/src/fwx_main.c:2171-2191 | within 30 seconds of a rule change a packet of an app above 1000 is dropped iff the rules match now |
| Mark.DropIsFinalIff | luci-app-oaf/oaf/src/fwx_main.c:2418-2461 | every packet of every run is dropped, whatever rules and inspection say, iff the drop flag is set and the id is at most 1000 |
| Mark.ObeysIff | luci-app-oaf/oaf/src/fwx_main.c:2433-2456 | soon after any rule change the packets are dropped just when the rules match, iff the id lies in 1001..32000 |
| Mark.FirstClassification | luci-app-oaf/oaf/src/fwx_main.c:2470-2532 | the first match fixes id and verdict together |
| MarkPackets.UnclassifiedPacket | luci-app-oaf/oaf/src/fwx_main.c:2458-2532 | without a valid id and a lasting drop: inspected iff accounting is on, at most 256 packets went by and the data is readable; dropped iff inspected and the client rule or a rule for the match holds; the drop bit says so afterwards; otherwise nothing changes |
| MarkPackets.UnclassifiedFields | luci-app-oaf/oaf/src/fwx_main.c:2485-2509 | without a match only the two top bits can change; with one the id is the feature's low half, and the DNS and ignore bits are the feature's, ignore for ids from 1000 on |
| MarkPackets.ClassifiedPacket | luci-app-oaf/oaf/src/fwx_main.c:2411-2461 | with a valid id: no inspection, only the drop bit can change, it is the verdict, and for ids above 1000 it becomes the rules' answer within 3000 ticks of a change |
| Conntrack.ExpiryIsRealTime | luci-app-oaf/oaf/src/fwx_conntrack.c:127-157 | the wrapped tick comparison agrees with real time for spans up to half the clock |
| Conntrack.ConnTable.Find | luci-app-oaf/oaf/src/fwx_conntrack.c:87-102 | the bucket walk is a lookup in the map of connections |
| Conntrack.ConnTable.Touch | luci-app-oaf/oaf/src/fwx_conntrack.c:59-114 | finds the connection, or adds one in its initial state, and stamps it; one node per key, always in its bucket |
| Conntrack.TouchMeaning | luci-app-oaf/oaf/src/fwx_main.c:2250-2258 | a packet counts itself and stamps its connection, which starts with nothing known, and changes no other |
| Conntrack.ConnTable.CleanTimeout | luci-app-oaf/oaf/src/fwx_conntrack.c:127-157 | one sweep removes exactly the expired connections of its buckets and moves the cursor on |
| Conntrack.CallsBeforeBound | luci-app-oaf/oaf/src/fwx_conntrack.c:127-157 | from any cursor each bucket comes up within one round of 51 calls |
| Conntrack.SweepSparesLive | luci-app-oaf/oaf/src/fwx_conntrack.c:127-157 | a connection that has not expired survives any sweep unchanged |
| Conntrack.BusyStays | luci-app-oaf/oaf/src/fwx_conntrack.c:127-157 | a connection no sweep finds expired stays through any run, counts all its packets and carries the time of the last |
| Conntrack.IdleIsSwept | luci-app-oaf/oaf/src/fwx_conntrack.c:127-157 | a connection that stays idle is gone as soon as its bucket came up |
| Conntrack.IdleGoneInOneRound | luci-app-oaf/oaf/src/fwx_conntrack.c:127-157 | a connection that stays idle is gone after any 51 sweeps |
| AppFilter.AppIdSet.Find | luci-app-oaf/oaf/src/fwx_app_filter.c:60-70 | the bucket walk decides membership |
| AppFilter.AppIdSet.Add | luci-app-oaf/oaf/src/fwx_app_filter.c:73-99 | adds the id unless it is new and the set is full; an id already there is no error |
| AppFilter.AppIdSet.AddRange | luci-app-oaf/oaf/src/fwx_app_filter.c:101-145 | adds a range in order: all of it, or exactly the ids before the first for which there is no room |
| AppFilter.AppIdSet.Delete | luci-app-oaf/oaf/src/fwx_app_filter.c:300-323 | removes exactly the id, reporting whether it was there |
| AppFilter.MatchRule | luci-app-oaf/oaf/src/fwx_app_filter.c:326-375 | the first enabled rule for the client that holds the id, or none applies |
| CustomApps.CustomConfig.AllocateAppids | luci-app-oaf/open-app-filter/src/fwx_custom_feature.c:426-458 | succeeds iff the given ids are distinct and no class is too big, and then sorts what the reference assignment gives |
| CustomApps.CustomConfig.MarkExplicit | luci-app-oaf/open-app-filter/src/fwx_custom_feature.c:432-441 | the table marks exactly the given ids, or a repeated one is refused |
| CustomApps.CustomConfig.FillMissing | luci-app-oaf/open-app-filter/src/fwx_custom_feature.c:442-455 | the second pass is the reference assignment |
| CustomApps.CustomConfig.FirstUnmarked | luci-app-oaf/open-app-filter/src/fwx_custom_feature.c:445-448 | the inner loop finds the least free suffix |
| CustomApps.LeastFree | luci-app-oaf/open-app-filter/src/fwx_custom_feature.c:445-452 | the suffix returned is free and every smaller one is taken; none means all are |
| CustomApps.RoomIffSmallClasses | luci-app-oaf/open-app-filter/src/fwx_custom_feature.c:426-458 | ids can be given out iff no class holds more than a hundred applications |
| CustomApps.AssignMeaning | luci-app-oaf/open-app-filter/src/fwx_custom_feature.c:426-458 | given ids are kept and each new one is the least of its class not taken at its turn |
| CustomApps.AssignedIds | luci-app-oaf/open-app-filter/src/fwx_custom_feature.c:426-458 | all ids lie in their class's range and no two are alike |
| CustomApps.SortMeaning | luci-app-oaf/open-app-filter/src/fwx_custom_feature.c:416-456 | sorting is an ordered permutation |
| CustomApps.AllocatedList | luci-app-oaf/open-app-filter/src/fwx_custom_feature.c:426-458 | the result is a permutation of the assigned list, strictly ascending by id |
| Strings.StrtolReadsInt | luci-app-oaf/open-app-filter/src/fwx_custom_feature.c:157-170 | reading a printed integer stops right after it with its value |
| Strings.SplitsJoin | luci-app-oaf/open-app-filter/src/fwx_custom_feature.c:206-220 | splitting joined fields gives the fields back |
| CustomRoundTrip.PayloadRoundTrip | luci-app-oaf/open-app-filter/src/fwx_custom_feature.c:222-263 | a payload check printed and parsed is the same check |
| CustomRoundTrip.PayloadsRoundTrip | luci-app-oaf/open-app-filter/src/fwx_custom_feature.c:222-263 | a whole payload list survives printing and parsing |
| CustomRoundTrip.NormalizeIdempotent | luci-app-oaf/open-app-filter/src/fwx_custom_feature.c:172-204 | a normalized port text is normal |
| CustomForms.SpellingReads | luci-app-oaf/open-app-filter/src/fwx_custom_feature.c:157-170 | a number spelled with white space, a sign and zeros in front is read as that number, up to where its digits end |
| CustomForms.OnePortForm | luci-app-oaf/open-app-filter/src/fwx_custom_feature.c:172-220 | a single port, however spelled, is taken iff it is from 1 to 65535 and fits its field, and is stored plain |
| CustomForms.PortRangeForm | luci-app-oaf/open-app-filter/src/fwx_custom_feature.c:172-220 | a port range is taken iff both ends are ports, it does not run backwards and it fits its field |
| CustomForms.PayloadForm | luci-app-oaf/open-app-filter/src/fwx_custom_feature.c:222-263 | a payload check is a position, however spelled, and two hexadecimal digits of either case |
| CustomForms.ProtocolForms | luci-app-oaf/open-app-filter/src/fwx_custom_feature.c:313-318 | the protocol is tcp or udp in any case |
| CustomForms.ForbiddenIff | luci-app-oaf/open-app-filter/src/fwx_custom_feature.c:145-155 | which characters a domain, a path and a name may not hold |
| CustomRoundTrip.FeatureRoundTrip | luci-app-oaf/open-app-filter/src/fwx_custom_feature.c:295-357 | a valid feature printed and parsed is the same feature |
| CustomRoundTrip.FeaturesRoundTrip | luci-app-oaf/open-app-filter/src/fwx_custom_feature.c:295-383 | a list of valid features survives printing and parsing |
| CustomRoundTrip.AppRoundTrip | luci-app-oaf/open-app-filter/src/fwx_custom_feature.c:359-718 | a valid application printed as a line and parsed is the same application |
| CustomFile.SplitExact | luci-app-oaf/open-app-filter/src/fwx_custom_feature.c:206-220 | the cutting loop yields the fields iff there are exactly as many as asked for |
| CustomFile.ParseList | luci-app-oaf/open-app-filter/src/fwx_custom_feature.c:650-718 | the list loop parses every piece or fails, within its limit |
| CustomFile.WriteFile | luci-app-oaf/open-app-filter/src/fwx_custom_feature.c:768-803 | writes one line per application, or fails when one does not fit |
| CustomFile.ReadConfig | luci-app-oaf/open-app-filter/src/fwx_custom_feature.c:720-766 | the line loop reads what the reference reader reads |
| CustomSubmit.ParsePayloadText | luci-app-oaf/open-app-filter/src/fwx_custom_feature.c:222-263 | the payload loop parses what the reference parser parses |
| CustomSubmit.ParseFeatureText | luci-app-oaf/open-app-filter/src/fwx_custom_feature.c:295-335 | cutting, normalizing and checking in the code's order parse what the reference parser parses |
| CustomSubmit.ParseAppLine | luci-app-oaf/open-app-filter/src/fwx_custom_feature.c:650-718 | the line parser accepts what the reference parser accepts |
| CustomSubmit.StoredIsValid | luci-app-oaf/open-app-filter/src/fwx_custom_feature.c:582-640 | every application of a checked and allocated submission is valid after those stored before it |
| CustomSubmit.SubmissionSurvivesIff | luci-app-oaf/open-app-filter/src/fwx_custom_feature.c:570-803 | a checked, allocated submission whose lines fit is read back from its file iff no name holds a line end |
| CustomFile.FileRoundTrip | luci-app-oaf/open-app-filter/src/fwx_custom_feature.c:720-803 | writing a valid sorted configuration and reading the file is the identity |
| Dns.AppendLabel | luci-app-oaf/oaf/src/fwx_main.c:1818-1834 | a label is appended lower-cased after a dot, unless it does not fit |
| Dns.ParseQueryName | luci-app-oaf/oaf/src/fwx_main.c:1793-1846 | the label loop and the type field give what the reference parser gives |
| Dns.QuestionMeaning | luci-app-oaf/oaf/src/fwx_main.c:1793-1846 | parsing succeeds with a name, type and end iff the bytes encode labels that spell the name, followed by the fixed fields (sections 3.1 and 4.1.2 of RFC 1035) |
| Dns.PointersRefused | luci-app-oaf/oaf/src/fwx_main.c:1793-1846 | a compression pointer is refused |
| Dns.DpiDns | luci-app-oaf/oaf/src/fwx_main.c:1848-1923 | the section loop collects the questions of the message, UDP or TCP |
| Dns.QuestionsMeaning | luci-app-oaf/oaf/src/fwx_main.c:1897-1913 | the questions are the longest run of parsable ones, each starting where the last ended, up to the limit |
| DnsQuery.UdpQuery | luci-app-oaf/oaf/src/fwx_main.c:1848-1923 | for any query over UDP exactly the names asked for come back, in lower case and dotted, with their types, up to sixteen |
| DnsQuery.TcpQuery | luci-app-oaf/oaf/src/fwx_main.c:1866-1878 | the same over TCP behind the two bytes of the length |
| DnsQuery.NotAQuery | luci-app-oaf/oaf/src/fwx_main.c:1848-1891 | other ports, other protocols, short data, responses and messages without questions give nothing |
| Sessions.PushAllIsNewestFive | luci-app-oaf/open-app-filter/src/fwx_user.c:94-122 | the list holds the up to five most recent distinct apps, newest first |
| Sessions.ClientNode.ShiftIn | luci-app-oaf/open-app-filter/src/fwx_user.c:102-120 | the shift loop makes room at the front |
| Sessions.ClientNode.PushRecentApp | luci-app-oaf/open-app-filter/src/fwx_user.c:94-122 | a known app moves to the front, a new one enters there |
| Sessions.ClientNode.ResetSession | luci-app-oaf/open-app-filter/src/fwx_user.c:124-129 | the session starts empty |
| Sessions.ClientNode.Report | luci-app-oaf/open-app-filter/src/fwx_user.c:131-151 | traffic, time and app reports are added to the session while the client is online |
| Sessions.ClientNode.CleanOnlineStatus | luci-app-oaf/open-app-filter/src/fwx_user.c:2276-2289 | before a refresh the last state is remembered, and a client that was online is stamped and taken offline |
| Sessions.ClientNode.DoRefresh | luci-app-oaf/open-app-filter/src/fwx_user.c:2276-2448 | one refresh changes the client and writes records as the reference transition says |
| Sessions.ClientNode.SetFlags | luci-app-oaf/open-app-filter/src/fwx_user.c:2292-2396 | the client is online and active as the kernel list, or the radio list, says |
| Sessions.ClientNode.Transition | luci-app-oaf/open-app-filter/src/fwx_user.c:2397-2448 | coming online starts a session, going offline closes it |
| Sessions.RecordList.Add | luci-app-oaf/open-app-filter/src/fwx_user.c:153-203 | the record list gains the record; the oldest falls off beyond 4096 |
| Sessions.SessionIsTally | luci-app-oaf/open-app-filter/src/fwx_user.c:124-151 | while online the session is the tally of everything since the client came online |
| Sessions.RecordsAlternate | luci-app-oaf/open-app-filter/src/fwx_user.c:2397-2448 | in every run the records strictly alternate, online first |
| Sessions.OfflineRecordIsTally | luci-app-oaf/open-app-filter/src/fwx_user.c:2397-2448 | the offline record carries exactly what the session added up to |
| SessionRecords.OnlineMeaning | luci-app-oaf/open-app-filter/src/fwx_user.c:2292-2396 | a client is online iff a refresh saw it, on its radio or without one in the kernel's list, and none since has missed it |
| SessionRecords.ActiveMeaning | luci-app-oaf/open-app-filter/src/fwx_user.c:2292-2396 | a client is active iff the last refresh found it busy in the kernel's list and its radio did not miss it |
| SessionRecords.SinceMeaning | luci-app-oaf/open-app-filter/src/fwx_user.c:2397-2448 | what a session counts is everything after the refresh that brought the client online |
| SessionRecords.RecordedMeaning | luci-app-oaf/open-app-filter/src/fwx_user.c:2441-2444 | in every run the client stands recorded iff a later refresh of its present session saw it in bypass mode or active |
| SessionRecords.RecordsWritten | luci-app-oaf/open-app-filter/src/fwx_user.c:2397-2448 | which record each event writes, with its time and session, and that all others write none |
| SessionRecords.OnlineRecordTime | luci-app-oaf/open-app-filter/src/fwx_user.c:2441-2444 | the online record carries the time of the first refresh of the session that saw something to record |
| Hours.GetVisitDurationInHour | luci-app-oaf/open-app-filter/src/fwx_user.c:2799-2834 | the splitting loop ends and sums the visit's segments of one hour |
| HoursMeaning.DurationMeaning | luci-app-oaf/open-app-filter/src/fwx_user.c:2799-2834 | a visit's duration in an hour is the number of its seconds that lie in that hour |
| Hours.HoursAddUp | luci-app-oaf/open-app-filter/src/fwx_user.c:2799-2834 | over the day a visit's durations sum to its whole extent, or to one second if it has none |
| Hours.HourStats.AddAppDuration | luci-app-oaf/open-app-filter/src/fwx_user.c:2836-2886 | a known app adds up to the cap; a new one takes a free slot or displaces a smaller one |
| HoursMeaning.KnownAppAdds | luci-app-oaf/open-app-filter/src/fwx_user.c:2845-2857 | an app with a slot adds to it, up to 3600 seconds |
| HoursMeaning.NewAppEnters | luci-app-oaf/open-app-filter/src/fwx_user.c:2858-2886 | a new app takes a free slot of the eight, or the first of the least iff it stayed longer, or is left out |
| Hours.HourStats.FindLeast | luci-app-oaf/open-app-filter/src/fwx_user.c:2868-2876 | the loop finds the first of the least slots |
| Hours.HourStats.AccumulateVisit | luci-app-oaf/open-app-filter/src/fwx_user.c:2888-2923 | a visit adds each of its segments to its hour, in order |
| Hours.HourStats.AccumulateVisits | luci-app-oaf/open-app-filter/src/fwx_user.c:3020-3032 | the visits are added one after the other |
| Hours.TallyIffFewApps | luci-app-oaf/open-app-filter/src/fwx_user.c:2836-2886 | a row ends as the capped totals of all its apps iff there are at most eight |
| Hours.AccountsIffFewApps | luci-app-oaf/open-app-filter/src/fwx_user.c:2836-2923 | an hour's row holds exactly one capped total per active app iff at most eight apps were active |
| Hours.NeverOvercounts | luci-app-oaf/open-app-filter/src/fwx_user.c:2836-2886 | however many apps there are, each has at most one slot and none shows more than its capped total |
| Hours.RowNeverOvercounts | luci-app-oaf/open-app-filter/src/fwx_user.c:2836-2923 | however many apps were active, every slot is an active app's and shows at most its capped seconds |
| Hours.SlotsIgnoreOrder | luci-app-oaf/open-app-filter/src/fwx_user.c:2836-2923 | with at most eight active apps the slots are the same for every order of the visits |
| Ring.SessionRing.Append | luci-app-oaf/open-app-filter/src/fwx_stat.c:79-94 | the ring holds the last values appended, as many as it has room for |
| Ring.AppendsWhenFull | luci-app-oaf/open-app-filter/src/fwx_stat.c:89-93 | overwriting the start of a full ring drops the oldest value and appends the new one |
| Ring.SessionStat.Tick | luci-app-oaf/open-app-filter/src/fwx_stat.c:96-106 | after every tick the detail ring reads as the last 60 samples and the minute ring as the last 1440 of every twelfth |
| Ring.SessionStat.GetHistorySession | luci-app-oaf/open-app-filter/src/fwx_stat.c:108-214 | a query lists exactly the last entries its window asks for, with their peak and rounded average |
| Ring.WindowMeaning | luci-app-oaf/open-app-filter/src/fwx_stat.c:137-163 | five minutes of detail by either name, else the number given up to a day, an hour for none that is positive; a day or an hour without a number |
| Ring.Collect | luci-app-oaf/open-app-filter/src/fwx_stat.c:165-189 | the query loop collects the entries, their sum and their maximum |
| Ring.AverageIsClose | luci-app-oaf/open-app-filter/src/fwx_stat.c:196 | the average is the mean rounded to nearest, halves up, and lies among the values |
| Md5.FIsRfcF | luci-app-oaf/open-app-filter/src/fwx_utils.c:221 | the rewritten F is F of section 3.4 of RFC 1321 |
| Md5.GIsRfcG | luci-app-oaf/open-app-filter/src/fwx_utils.c:222 | the rewritten G is G of section 3.4 of RFC 1321 |
| Md5.RotlIsRotation | luci-app-oaf/open-app-filter/src/fwx_utils.c:225 | the two shifts are a circular shift, for every amount in use |
| Md5.IndexFormulas | luci-app-oaf/open-app-filter/src/fwx_utils.c:282-294 | the index formulas give the word indices RFC 1321 lists |
| Md5.ShiftsAgree | luci-app-oaf/open-app-filter/src/fwx_utils.c:246-251 | the shift table repeats the four amounts of each round |
| Md5.StepTurns | luci-app-oaf/open-app-filter/src/fwx_utils.c:296-299 | passing the registers along is the rotation of roles ABCD, DABC, CDAB, BCDA |
| Md5.StepIsOperation | luci-app-oaf/open-app-filter/src/fwx_utils.c:279-300 | one turn of the loop is one listed operation |
| Md5.Transform | luci-app-oaf/open-app-filter/src/fwx_utils.c:267-306 | the loop of 64 turns is the block step of section 3.4 of RFC 1321 |
| Md5.TailBlocks | luci-app-oaf/open-app-filter/src/fwx_utils.c:322-333 | marker, zeros and length make one block, or two when they do not fit |
| Md5.Finish | luci-app-oaf/open-app-filter/src/fwx_utils.c:322-333 | the tail code feeds exactly the blocks of the padded rest |
| Md5.Md5 | luci-app-oaf/open-app-filter/src/fwx_utils.c:308-337 | for every byte string the digest is the one sections 3.1 to 3.5 of RFC 1321 define |
| Md5Suite.EmptyDigest | luci-app-oaf/open-app-filter/src/fwx_utils.c:308-337 | the digest of the empty text in appendix A.5 of RFC 1321 |
| Md5Suite.AbcDigest | luci-app-oaf/open-app-filter/src/fwx_utils.c:308-337 | the digest of `abc` in appendix A.5 of RFC 1321 |
| Md5Suite.AlnumDigest | luci-app-oaf/open-app-filter/src/fwx_utils.c:322-333 | the digest of the 62 letters and digits in appendix A.5 of RFC 1321, whose padding takes a second block |
| Md5.PaddingIsInjective | luci-app-oaf/open-app-filter/src/fwx_utils.c:322-333 | different messages are never padded to the same blocks |
| Json.PrintString | luci-app-oaf/oaf/src/k_json.c:194-224 | the printing loop quotes every character as the reference does |
| Json.PrintValue | luci-app-oaf/oaf/src/k_json.c:268-282 | prints by kind |
| Json.PrintArray | luci-app-oaf/oaf/src/k_json.c:313-334 | prints the items in order, each through the format step; fails when one is undefined |
| Json.PrintObject | luci-app-oaf/oaf/src/k_json.c:372-398 | prints the members in order with tabs, each text through the format step |
| Json.SkipBlanks | luci-app-oaf/oaf/src/k_json.c:237 | skips white space, running off the end when nothing else follows |
| Json.ParseNumber | luci-app-oaf/oaf/src/k_json.c:119-129 | reads an optional sign it ignores, a zero, and digits that may overflow |
| Json.ParseString | luci-app-oaf/oaf/src/k_json.c:144-191 | reads a string up to its quote, a control character or the end |
| Json.ParseValue | luci-app-oaf/oaf/src/k_json.c:253-265 | dispatches on the first characters |
| Json.ParseArray | luci-app-oaf/oaf/src/k_json.c:285-310 | the item loop reads what the recursive reader reads |
| Json.ParseObject | luci-app-oaf/oaf/src/k_json.c:337-369 | the member loop reads what the recursive reader reads |
| Json.Parse | luci-app-oaf/oaf/src/k_json.c:240-247 | leading white space, then one value |
| JsonRoundTrip.CharsReadBack | luci-app-oaf/oaf/src/k_json.c:144-224 | a printed string is read back without its unprintable control characters |
| JsonRoundTrip.NumberReadsBack | luci-app-oaf/oaf/src/k_json.c:119-139 | a printed number is read back without its sign |
| JsonRoundTrip.ValueReadsBack | luci-app-oaf/oaf/src/k_json.c:253-398 | any tree's text, with its white space, without it or with some of it, parses to what is shown of the tree without signs and dropped characters and stops right after it |
| JsonTexts.StringTextReads | luci-app-oaf/oaf/src/k_json.c:144-191 | every string text, whatever of it is escaped, is read as the characters section 7 of RFC 8259 gives it |
| JsonTexts.SourceReads | luci-app-oaf/oaf/src/k_json.c:253-369 | every JSON text of RFC 8259 with integers up to 2147483647, whatever its white space, is read as its tree but for signs, up to where it ends |
| JsonTexts.DocumentReads | luci-app-oaf/oaf/src/k_json.c:240-247 | so is a whole document behind white space |
| JsonPrinted.PrintedIsJson | luci-app-oaf/oaf/src/k_json.c:194-398 | what is printed of a tree, wide or compact, is a JSON text that stands for the tree, signs included |
| JsonPrinted.KeptIff | luci-app-oaf/oaf/src/k_json.c:206-220 | a character is printed iff it is above 31 or has a short escape |
| JsonExact.PrintsRender | luci-app-oaf/oaf/src/k_json.c:313-398 | a tree without percent signs in its children prints its plain text |
| JsonExact.ParsePrinted | luci-app-oaf/oaf/src/k_json.c:119-398 | parsing what was printed gives the tree without signs and dropped characters |
| JsonExact.ValueOverflows | luci-app-oaf/oaf/src/k_json.c:119-398 | a tree that holds the least 32-bit number has a text whose parse overflows |
| JsonCounts.ValueKeeps | luci-app-oaf/oaf/src/k_json.c:144-369 | for any text: a parsed tree and what follows it hold no more percent signs, slashes or spaces than the text |
| JsonCounts.RenderCounts | luci-app-oaf/oaf/src/k_json.c:194-398 | a tree's text holds as many percent signs and slashes as the tree |
| JsonExact.PrintedHolds | luci-app-oaf/oaf/src/k_json.c:313-398 | the text of an array or object holds at most half of the percent signs of the tree |
| JsonExact.ParseRendered | luci-app-oaf/oaf/src/k_json.c:119-398 | for trees of 32-bit numbers in any layout: what is shown of the tree, or an overflow |
| JsonExact.ParsePrintedInRange | luci-app-oaf/oaf/src/k_json.c:119-398 | for trees of 32-bit numbers, wide or compact: the tree without signs and dropped characters, or an overflow |
| JsonExact.RoundTripIff | luci-app-oaf/oaf/src/k_json.c:119-398 | for every tree of 32-bit numbers: printing and parsing gives the tree itself iff no number is negative, no character is dropped and no child holds a percent sign |
| JsonExact.LeastNumberOverflows | luci-app-oaf/oaf/src/k_json.c:119-139 | the least 32-bit number prints digits that overflow when read |
| JsonExact.PercentIsMangled | luci-app-oaf/oaf/src/k_json.c:313-334 | a doubled percent sign inside an array comes back single |
| Minify.SkipOneline | luci-app-oaf/oaf/src/k_json.c:403-414 | moves to just after the line |
| Minify.SkipMultiline | luci-app-oaf/oaf/src/k_json.c:415-427 | moves to just after the comment, or to the end |
| Minify.StringStep | luci-app-oaf/oaf/src/k_json.c:434-447 | one turn of the string loop copies a character or an escaped quote |
| Minify.MinifyString | luci-app-oaf/oaf/src/k_json.c:428-448 | copies a string in place behind what is still to be read |
| Minify.MinifyStep | luci-app-oaf/oaf/src/k_json.c:459-491 | one turn of the main loop |
| Minify.MinifyInPlace | luci-app-oaf/oaf/src/k_json.c:450-496 | the buffer ends up holding the minified text, terminated; writing never passes reading |
| MinifyTexts.MinifiedMeaning | luci-app-oaf/oaf/src/k_json.c:403-496 | of any text, white space, line and block comments, closed or not, and stray slashes go; strings whose quotes are escaped and all other characters stay |
| MinifyTheorem.FedIsFeed | luci-app-oaf/oaf/src/k_json.c:403-496 | the minifier adds no slash, and loses one as soon as it meets one outside strings |
| MinifyTheorem.FedChars | luci-app-oaf/oaf/src/k_json.c:428-448 | read from inside, a printed string ends where it should unless its last character is a backslash |
| MinifyTheorem.FedBare | luci-app-oaf/oaf/src/k_json.c:459-491 | read from outside, a printed string loses the spaces before its first quote, or meets a slash there |
| MinifyTheorem.FedValue | luci-app-oaf/oaf/src/k_json.c:450-496 | the minified text of a tree is the traced text, with the white space of the stretches taken for strings, unless a slash is met from outside |
| MinifyTheorem.MinifiedReads | luci-app-oaf/oaf/src/k_json.c:450-496 | as long as no slash is met the minified text reads as the tree less the spaces met |
| MinifyTheorem.MinifyKeepsMeaningIff | luci-app-oaf/oaf/src/k_json.c:450-496 | for trees of 32-bit numbers: the minified text still reads as the tree iff its numbers read back and no space and no slash is met from the wrong side of the quotes |
| MinifyTheorem.MinifiedIsCompact | luci-app-oaf/oaf/src/k_json.c:450-496 | without trailing backslashes minifying leaves exactly the compact text |
| MinifyTheorem.MinifyKeepsMeaning | luci-app-oaf/oaf/src/k_json.c:450-496 | without trailing backslashes parsing the minified text gives what parsing the printed text gives, overflow included |
| MinifyTheorem.TrailingBackslashMisread | luci-app-oaf/oaf/src/k_json.c:434-447 | after a string that ends in a backslash the next string loses its leading space |

## Left out

- TLS and HTTP parsing, the DNS stages of the feature match and the address parsers: what they find is part of the flow.
- Locks, timers, netlink, procfs, sqlite, ubus, files and allocation failure: pure steps over the data remain.
- AhoCorasick: nodes are positions in the node list and fail links a table beside it, so pointer aliasing is not modelled; scan counters do not wrap.
- RegexTheorem.RegexpDecidesLanguage: leading or doubled quantifiers, chained ranges such as `a-c-e` and a `-` at either end of a class are not pattern trees, and the class of `\d` is taken to be the ten digits although the code leaves a byte of that list unset. The compiler model covers every text: a trailing backslash, a descending range, a range end of 128 or more and a class over 255 characters are undefined. A quantifier without an atom matches nothing in the model where the code reads an uninitialised character.
- MatchingTheorem: patterns the compiler leaves undefined are excluded. The DNS stages are left out, so the flows are those without a DNS query.
- Matching: hosts and patterns hold no NUL; buffer limits of the parsers are not modelled.
- Container.Build: the repository has no encoder; the one here writes the header the decoder checks. Reading the file is left out.
- Mark: the clock runs at 100 ticks a second; rules, client rules and the result of inspection are inputs of each packet, and the record and whitelist side effects are left out.
- Conntrack: ticks are 32 bits wide at 100 a second and the hash function is a parameter.
- AppFilter: user and time windows of a rule beyond the client list are not modelled.
- CustomApps.CustomConfig.AllocateAppids: `qsort` is an insertion sort, and the list after a failure is not described.
- CustomSubmit: the JSON form of a submission is left out, what its checks establish is not; the submission is one whose lines fit; whether an id is available and how many base entries exist are parameters; `strtol` is modelled without the limits of `long`.
- Dns: names longer than the buffer are refused as in the code, and the record sections after the questions are not looked at.
- Sessions: one client's view, with byte counters that do not wrap; names, addresses and the reading of kernel and radio lists are inputs.
- Hours: which visits belong to today and the sorting of a row for display are left out; `localtime` and `mktime` are a calendar that maps times to hours 0..23 and always advances, and for the count of seconds changes the hour only where the next one starts; an hour of -1 on a failed conversion is left out.
- Ring: samples are not negative; the cast of the kernel's count to `int` is left out.
- Md5: the table of 64 constants is the code's and is not derived from the sine function, but three digests of the test suite follow from it; lengths are taken modulo 2^64 bits.
- Json.ParseString: `\u` escapes, which the printer never writes, are not modelled and end a parse as unspecified, as do texts whose end the code runs past; characters count as unsigned.
- JsonTexts: numbers with a fraction or an exponent are no sources; the parser ends a number after its digits.
- Json: item links and deletion, recursion depth and the sizes of printed buffers are not modelled.
