# Zone Delta Launcher: Java discovery, distribution index and news rules in Dafny

This project models three parts of the launcher and proves properties about them.

- **Java discovery** (`JavaGuard` and `Util` in `app/assets/js/assetguard.js`):
  - the version helpers `mcVersionAtLeast`, `isForgeGradle3` and `isAutoconnectBroken`;
  - the Java runtime version parser;
  - the scan of a `java -XshowSettings:properties` output;
  - the candidate scans: file system, registry, `JAVA_HOME` and the applet plugin;
  - the validation of candidate roots and the ranking of the valid ones;
  - the three per-platform resolvers: the Windows and Linux ones as written, the macOS one both as written and with the `contains` call at `assetguard.js:776` corrected (see "Findings");
  - the `validateJava` dispatch, over the corrected macOS resolver;
  - the choice of a JDK download, from Adoptium or Corretto.
- **The distribution index** (`app/assets/js/distromanager.js`):
  - `Required.fromJSON`;
  - the `Server` getters;
  - the index's server list, main server and lookup;
  - the developer-mode flag and the cached distribution.
- **The landing page's news rules** (`app/assets/js/scripts/landing.js`):
  - the article navigation arithmetic;
  - the "is the latest article new" decision and the cache write that follows it;
  - the comment-count label.

JavaScript values are modelled explicitly (module `JsRuntime`):

- A number is `Num(n)`, `NaN` or `undefined`. `===` and the comparisons follow JavaScript: NaN and `undefined` compare false with everything, and `undefined === undefined` holds.
- A thrown `TypeError` (reading a member of `undefined`, calling a method that does not exist) is the `Err` case of a `Result`.
- `split`, `indexOf`, `lastIndexOf`, `trim`, `parseInt` and `Number` are written out on `seq<char>`, together with the prefix of `parseFloat` that the registry scan needs.
- A JavaScript `Set` of strings is a sequence without duplicates in insertion order (module `JsSet`).

Nothing the launcher reads from the outside world is executed. What the file system, the registry, the environment, the drive list and a spawned `java` answer is a `Host` record passed to the operations. The same goes for the HTTP answers of the download lookups, the fetched distribution JSON and the stored news cache.

Operations that work by a loop or by updating state are methods proved against a specification function:

- `McVersionAtLeast`, `CompareToBound`, `ScanLines`, `ScanFileSystem`, `ValidateJavaRootSet` and the three resolvers are methods.
- `DistroIndex` and `NewsState` are classes whose methods update their fields.
- Everything else is a function, with lemmas stating what the source promises.

Where the code and its documentation disagree, the model follows the code:

- The parsers are documented for a full version string (`assetguard.js:268` and `:304`). A short one like `8.0` is still accepted, as a modern version whose revision and build are NaN (`JavaVersion.ParseShortModern`).
- A property scan counts any two hits as valid, including two architecture lines (`JvmProperties.ValidIffTwoHits`).
- The `javaw.exe` rewrite at `assetguard.js:417` discards its result, so the `java.exe` path is never used (`JavaDiscovery.JavawNotRewritten`).

## Model

| member | source | states |
|---|---|---|
| VersionUtil.McVersionAtLeast | app/assets/js/assetguard.js:42-52 | the loop with its early return answers exactly whether every component of `desired` is matched or exceeded by the same component of `actual`, a missing component being NaN |
| VersionUtil.TooFewComponents | app/assets/js/assetguard.js:46-48 | an actual version with fewer components than the desired one is never at least it, because the missing component reads as NaN |
| VersionUtil.VersionAtLeastDotted | app/assets/js/assetguard.js:42-52 | on numeric dotted versions the test is component-wise: `ys` is at least `xs` iff it has at least as many components and each is at least the matching one |
| VersionUtil.ComponentwiseNotLexicographic | app/assets/js/assetguard.js:46-48 | the test is not lexicographic: `2.0` is not at least `1.17` |
| VersionUtil.CompareToBound | app/assets/js/assetguard.js:67-75 | the loop over the bound answers `above` when the first deciding component is above the bound, `!above` when it is below, and the equal-case answer when no component decides |
| VersionUtil.DecidingAboveIsLexGreater | app/assets/js/assetguard.js:67-75 | on numeric components, "the first deciding component is above" is exactly lexicographic greater-than |
| VersionUtil.DecidingBelowIsLexLess | app/assets/js/assetguard.js:88-95 | on numeric components, "the first deciding component is below" is exactly lexicographic less-than |
| VersionUtil.DecidingExclusive | app/assets/js/assetguard.js:67-75 | the first deciding component cannot be both above and below the bound |
| VersionUtil.IsForgeGradle3 | app/assets/js/assetguard.js:54-80 | Minecraft 1.13 and later answers true; a Forge version without `-` throws the "complex" error; otherwise the part after the first `-` is compared with 14.23.5.2847 |
| VersionUtil.ForgeGradle3ForModernMinecraft | app/assets/js/assetguard.js:56-58 | a Minecraft version at least 1.13 always uses ForgeGradle 3, whatever the Forge version |
| VersionUtil.ForgeGradle3Lexicographic | app/assets/js/assetguard.js:62-77 | below 1.13, `<mc>-a.b.c.d` uses ForgeGradle 3 iff `[a,b,c,d]` is lexicographically above `[14,23,5,2847]` |
| VersionUtil.ForgeGradle3For1122 | app/assets/js/assetguard.js:62-77 | for Minecraft 1.12.2 and any Forge `1.12.2-14.23.5.<n>`, the answer is whether `[14,23,5,n]` is lexicographically above `[14,23,5,2847]` |
| VersionUtil.ForgeGradle3AtThreshold | app/assets/js/assetguard.js:66-77 | for Minecraft 1.12.2, Forge `1.12.2-14.23.5.2847` answers false and `1.12.2-14.23.5.2848` answers true |
| VersionUtil.MinecraftStrings | app/assets/js/assetguard.js:56 | the dotted forms of `[1,13]` and `[1,12,2]` are the strings `1.13` and `1.12.2` |
| VersionUtil.ThresholdStrings | app/assets/js/assetguard.js:66 | the dotted form of `[14,23,5,n]` is `14.23.5.` followed by the digits of `n` |
| VersionUtil.IsAutoconnectBroken | app/assets/js/assetguard.js:82-98 | only a major of exactly 31 is examined; the answer is whether the first deciding component is below 31.2.15 |
| VersionUtil.AutoconnectBrokenLexicographic | app/assets/js/assetguard.js:82-98 | a numeric `a.b.c` has broken autoconnect iff `a == 31` and it is lexicographically below 31.2.15 |
| VersionUtil.NumbersOfDotted | app/assets/js/assetguard.js:65 | `Number` applied to each component of a dotted version gives back its values |
| JavaVersion.ParseFailsExactly | app/assets/js/assetguard.js:275-296 | the parse throws exactly on a string whose first dotted component is `1` and that has no `-`; the modern form never throws |
| JavaVersion.ParseLegacyRoundTrip | app/assets/js/assetguard.js:291-301 | `1.m.0_u-b<b>` parses to major m, update u, build b |
| JavaVersion.ParseLegacyFields | app/assets/js/assetguard.js:295-299 | the legacy field extraction (after `-b`, after `_`, second dotted component) recovers the three numbers |
| JavaVersion.ParseModernRoundTrip | app/assets/js/assetguard.js:310-321 | `a.b.c+<b>` with `a != 1` parses to major a, minor b, revision c, build b |
| JavaVersion.ParseShortModern | app/assets/js/assetguard.js:310-321 | a two-component version like `8.0` is accepted, with revision and build NaN |
| JavaVersion.ParseLegacyExample | app/assets/js/assetguard.js:292-293 | the documented example `1.8.0_152-b16` parses to 8, 152, 16 |
| JavaVersion.ParseModernExample | app/assets/js/assetguard.js:311-312 | the documented example `10.0.2+13` parses to 10, 0, 2, 13 |
| JavaVersion.FormatModernIsModernForm | app/assets/js/assetguard.js:276-281 | a version whose major is not 1 takes the modern branch |
| JvmProperties.ValidateJvmProperties | app/assets/js/assetguard.js:332-393 | the line loop computes the meta object of the reference scan, or the `TypeError` the first malformed line throws |
| JvmProperties.ScanLines | app/assets/js/assetguard.js:341-388 | the loop with its `break` at the goal equals the reference run over the lines' effects |
| JvmProperties.ReadLine | app/assets/js/assetguard.js:342-387 | one iteration classifies the line (architecture, runtime version, vendor, other) and yields its effect |
| JvmProperties.VersionBranch | app/assets/js/assetguard.js:356-381 | a runtime-version line counts when Java 8 with update above 52 meets a Minecraft version below 1.17, or when Java 17+ meets 1.17+ |
| JvmProperties.ValidIffTwoHits | app/assets/js/assetguard.js:336-390 | without a throwing line the scan succeeds, and `valid` holds iff at least two lines count (the goal of 2) |
| JvmProperties.RunCounts | app/assets/js/assetguard.js:341-390 | without a throwing line the checksum never passes the goal and reaches it iff there are enough hits |
| JvmProperties.RunThrows | app/assets/js/assetguard.js:342-356 | the first malformed property line before the goal makes the whole scan throw its error |
| JvmProperties.RunStopsAtGoal | app/assets/js/assetguard.js:349-351 | once the goal is reached, lines after it have no effect |
| JvmProperties.LinesAfterGoalIgnored | app/assets/js/assetguard.js:346-380 | appending lines to an output that already reached the goal leaves the result unchanged |
| JvmProperties.LineHit | app/assets/js/assetguard.js:342-387 | a line counts iff its value parses and it is an architecture line of 64 or a compatible runtime version; the vendor line never counts |
| JvmProperties.CompatibleExactly | app/assets/js/assetguard.js:361-381 | compatibility is exactly Java 8 update above 52 before 1.17, or Java 17+ from 1.17; Java 9 to 16 never counts |
| JvmProperties.LegacyEightHit | app/assets/js/assetguard.js:361-371 | a `1.8.0_u-b<b>` runtime counts iff Minecraft is below 1.17 and u > 52 |
| JvmProperties.ModernHit | app/assets/js/assetguard.js:372-381 | a modern runtime counts iff Minecraft is 1.17+ and its major is at least 17 |
| JvmProperties.UpdateFortyRejected | app/assets/js/assetguard.js:364 | `1.8.0_40-b25` is rejected for pre-1.17 Minecraft |
| JvmProperties.EffectsAppend | app/assets/js/assetguard.js:341-388 | the lines' effects distribute over concatenation |
| JavaPaths.ExecFromRootIsExecPath | app/assets/js/assetguard.js:219-248 | on win32, darwin and linux the executable derived from any root passes `isJavaExecPath` |
| JavaPaths.ExecSegmentsEndWithSuffix | app/assets/js/assetguard.js:219-246 | the executable segments of each platform end with the suffix `isJavaExecPath` tests |
| JavaPaths.IsJavaExecPathRejects | app/assets/js/assetguard.js:236-248 | a null path, and any path on another platform, is not an executable path |
| JavaPaths.ExecFromRootInjective | app/assets/js/assetguard.js:219-228 | distinct roots (not ending in the separator) give distinct executables |
| JavaPaths.PlatformOf | app/assets/js/assetguard.js:833-835 | `process.platform` names one of the three supported platforms iff it is `win32`, `darwin` or `linux`, and the platform keeps the name |
| JavaPaths.PlatformOfName | app/assets/js/assetguard.js:833-835 | a platform is given back by its name, except an `Other` that holds a supported name |
| JavaPaths.Join | app/assets/js/assetguard.js:221-226 | the joined path ends with the joined segments |
| JsSet.AddAllProps | app/assets/js/assetguard.js:712-718 | adding elements to a set keeps it duplicate-free, holds exactly the old and new members, and keeps the old ones first |
| JsSet.UnionProps | app/assets/js/assetguard.js:727 | `new Set([...a, ...b])` is duplicate-free and holds exactly the members of both |
| JsSet.FromSeqProps | app/assets/js/assetguard.js:611 | a set built from a list holds exactly its members, without duplicates |
| JsSet.Add | app/assets/js/assetguard.js:732 | `set.add(x)` appends `x` only when it is absent |
| JavaDiscovery.ScanFileSystem | app/assets/js/assetguard.js:581-601 | the loop over the directory's entries computes the reference scan |
| JavaDiscovery.FileSystemRootsExactly | app/assets/js/assetguard.js:581-601 | the scan is duplicate-free and holds exactly the joined entries whose executable exists, and nothing when the directory does not exist |
| JavaDiscovery.ScanEntriesProps | app/assets/js/assetguard.js:588-596 | scanning entries onto a set adds exactly the entries whose executable exists |
| JavaDiscovery.EligibleSubkeyNames | app/assets/js/assetguard.js:509-511 | a subkey named `1.8...` (after the last backslash) is read and one named `1.7...` is not |
| JavaDiscovery.KeptHomesExactly | app/assets/js/assetguard.js:507-540 | the homes kept from a key's subkeys are exactly the `JavaHome` values of eligible subkeys without `(x86)` |
| JavaDiscovery.RegistryHomesExactly | app/assets/js/assetguard.js:477-556 | the registry candidates are exactly the kept homes under the existing keys |
| JavaDiscovery.RegistryRootsExactly | app/assets/js/assetguard.js:459-560 | the registry scan of both keys is duplicate-free, holds exactly the kept homes, and no `(x86)` path |
| JavaDiscovery.ScanJavaHome | app/assets/js/assetguard.js:441-450 | `JAVA_HOME` is answered iff it is set and exists |
| JavaDiscovery.ScanInternetPlugins | app/assets/js/assetguard.js:567-572 | the applet plugin root is answered iff its executable exists |
| JavaDiscovery.ValidBinaryExactly | app/assets/js/assetguard.js:408-433 | a binary is valid iff it is an executable path, exists, and the property scan of its output succeeds with `valid` |
| JavaDiscovery.JavawNotRewritten | app/assets/js/assetguard.js:416-419 | the `javaw.exe` rewrite would change the path, yet the spawned command names the original path |
| JavaDiscovery.ValidateRoot | app/assets/js/assetguard.js:616-622 | one iteration contributes the root's meta object tagged with its executable when valid, else nothing |
| JavaDiscovery.ValidateJavaRootSet | app/assets/js/assetguard.js:609-628 | the loop computes the in-order list of valid results |
| JavaDiscovery.RootResultsExactly | app/assets/js/assetguard.js:619-622 | a root contributes at most one result, its own valid one |
| JavaDiscovery.ValidRootsExactly | app/assets/js/assetguard.js:609-628 | the results are exactly the valid binaries of the roots, each tagged with its root's executable, at most one per root |
| JavaRanking.OutranksOrder | app/assets/js/assetguard.js:637-686 | the ranking key order is irreflexive, asymmetric and its incomparability is transitive (a strict weak order) |
| JavaRanking.CompareAgreesWithKey | app/assets/js/assetguard.js:637-686 | on results whose key fields are numbers the comparator answers -1 or 1 according to the key (major, then update and build or minor and revision, descending) and, on equal keys, -1 for a JRE and 0 for a JDK |
| JavaRanking.CompareNotAntisymmetric | app/assets/js/assetguard.js:647-652 | two JREs with equal versions each compare before the other, so the comparator is inconsistent |
| JavaRanking.CompareNaNFields | app/assets/js/assetguard.js:640-676 | at equal versions whose minor (or update) or revision (or build) is NaN, as in a GA version such as `17+35`, each side answers 1 against the other, so neither is put first and the JRE rule is not reached |
| JavaRanking.CompareThrows | app/assets/js/assetguard.js:640 | the comparator throws iff either side has no version |
| JavaRanking.InsertSorted | app/assets/js/assetguard.js:637-686 | inserting into a ranked list keeps it ranked and adds exactly that element |
| JavaRanking.SortByRankCorrect | app/assets/js/assetguard.js:637-686 | the sort returns a permutation of its input, ranked best first |
| JavaRanking.SortedHeadIsBest | app/assets/js/assetguard.js:637-686 | no element outranks the head of the sorted list |
| JavaRanking.SortValidJavaArrayCorrect | app/assets/js/assetguard.js:637-686 | the sort throws iff there are two or more results and one lacks a version; otherwise it is a ranked permutation |
| JavaResolver.PickBestCorrect | app/assets/js/assetguard.js:735-742 | the resolver answers null iff nothing is valid, and otherwise the executable of a valid result that nothing outranks |
| JavaResolver.JrePreferred | app/assets/js/assetguard.js:647-652 | of a JDK and a JRE with the same version whose fields are all numbers, the JRE is chosen in either order |
| JavaResolver.ScanMount | app/assets/js/assetguard.js:712-718 | the four Program Files scans of one drive |
| JavaResolver.ScanDrives | app/assets/js/assetguard.js:706-721 | the loop over the drives merges each drive's roots into the set |
| JavaResolver.Win32JavaValidate | app/assets/js/assetguard.js:702-744 | the Windows resolver validates the registry roots (or every drive's roots when the registry has none), the runtime directory, and `JAVA_HOME` unless it is an `(x86)` path, then picks the best |
| JavaResolver.DarwinJavaValidate | app/assets/js/assetguard.js:759-790 | the macOS resolver with line 776 corrected validates the JVM directory, the runtime directory, the applet plugin and `JAVA_HOME` cut to its bundle root, then picks the best |
| JavaResolver.DarwinJavaValidateAsWritten | app/assets/js/assetguard.js:759-790 | the macOS resolver as written throws whenever `JAVA_HOME` is set and exists, and otherwise answers what the corrected resolver answers |
| JavaResolver.LinuxJavaValidate | app/assets/js/assetguard.js:804-825 | the Linux resolver validates the JVM directory, the runtime directory and `JAVA_HOME`, then picks the best |
| JavaResolver.DriveRootsNoDup | app/assets/js/assetguard.js:711-719 | merging drive roots keeps the set duplicate-free and keeps what it held |
| JavaResolver.Win32RootsDistinct | app/assets/js/assetguard.js:705-733 | the Windows candidate set has no duplicates |
| JavaResolver.DarwinRootsDistinct | app/assets/js/assetguard.js:764-780 | the macOS candidate set has no duplicates |
| JavaResolver.LinuxRootsDistinct | app/assets/js/assetguard.js:809-815 | the Linux candidate set has no duplicates |
| JavaResolver.DrivesIgnoredWithRegistry | app/assets/js/assetguard.js:706 | when the registry yields any root, the drives do not matter |
| JavaResolver.X86JavaHomeSkipped | app/assets/js/assetguard.js:730-733 | an `(x86)` `JAVA_HOME` is a candidate only if a scan found it anyway |
| JavaResolver.LinuxRootsExactly | app/assets/js/assetguard.js:806-815 | the Linux candidates are exactly the JVM directory's roots, the runtime directory's roots and an existing `JAVA_HOME` |
| JavaResolver.RegistryHomesFrame | app/assets/js/assetguard.js:477-556 | the registry scan depends on the registry alone |
| JavaResolver.ScanEntriesFrame | app/assets/js/assetguard.js:581-601 | a directory scan depends on the platform and the file system alone |
| JavaResolver.AnswerIsValidExecutable | app/assets/js/assetguard.js:833-835 | any path the dispatch answers, with the corrected macOS resolver, is an executable path of the platform whose binary validated |
| JavaResolver.UnsupportedPlatform | app/assets/js/assetguard.js:833-835 | on a platform other than win32, darwin and linux the dispatch calls a missing method and throws |
| JavaResolver.DarwinAsWrittenThrows | app/assets/js/assetguard.js:773-779 | as written, any existing `JAVA_HOME` makes the macOS resolver throw, because strings have no `contains` |
| JavaResolver.NormalizedHasNoContentsHome | app/assets/js/assetguard.js:776-777 | the intended truncation leaves no `/Contents/Home` in the path |
| JavaResolver.NormalizeBundleHome | app/assets/js/assetguard.js:776-777 | the intended truncation maps `<root>/Contents/Home` to `<root>` and leaves a bundle root unchanged |
| RemoteJava.LatestAdoptiumFirstMatch | app/assets/js/assetguard.js:138-169 | the Adoptium lookup answers null iff the request failed or no entry matches (major, OS, JDK image, x64), and otherwise the link, size and name of the first match |
| RemoteJava.FirstMatch | app/assets/js/assetguard.js:148-153 | `find` stops at the first matching entry, and no earlier entry matches |
| RemoteJava.NonNumericMajorFindsNothing | app/assets/js/assetguard.js:149 | a major that is not a number matches no entry, so the lookup answers null |
| RemoteJava.LatestCorrettoName | app/assets/js/assetguard.js:171-210 | the Corretto lookup answers iff the HEAD status is 200, with the download URL and the archive's file name as the URL's last segment |
| RemoteJava.ProviderByPlatform | app/assets/js/assetguard.js:129-136 | macOS asks only Corretto and every other platform only Adoptium, and a missing major means 8 |
| RemoteJava.DefaultDarwinDownload | app/assets/js/assetguard.js:129-136 | with no major, macOS gets the Corretto 8 macOS archive and its size from `content-length` |
| DistroManager.RequiredFromJson | app/assets/js/distromanager.js:75-81 | a missing object gives required and default; a member is false only when the JSON says false, and missing or null means true |
| DistroManager.Server.GetMinecraftVersion | app/assets/js/distromanager.js:173-175 | reading `loadder.minecraft_version` throws iff the entry has no `loadder` |
| DistroManager.ResolvedServerGetters | app/assets/js/distromanager.js:121-192 | a resolved server is its JSON entry, with the getters reading its members; a name with no entry gives a server whose getters all read undefined |
| DistroManager.DistroIndex.ResolveServers | app/assets/js/distromanager.js:224-230 | the loop builds one server per listed name, in order, leaving the other fields alone |
| DistroManager.DistroIndex.ResolveMainServer | app/assets/js/distromanager.js:232-243 | the loop with an early return sets the main server to the `id` of the first flagged server, or else to the first server's name, or null |
| DistroManager.DistroIndex.FromJson | app/assets/js/distromanager.js:212-222 | the index copies version and RSS, resolves the servers, then the main server |
| DistroManager.DistroIndex.GetServer | app/assets/js/distromanager.js:274-281 | the lookup loop answers the reference lookup by name |
| DistroManager.DistroIndex.GetMainServer | app/assets/js/distromanager.js:288-290 | the main server is looked up by name, and null when none is set |
| DistroManager.FindServerFirst | app/assets/js/distromanager.js:274-281 | the lookup answers null iff no server has the name, and otherwise the first server that has it |
| DistroManager.MainServerChoice | app/assets/js/distromanager.js:232-243 | with no flagged server the main server is the first server's name; otherwise it is the first flagged server's `id` |
| DistroManager.UnflaggedMainServerFound | app/assets/js/distromanager.js:241-242 | with no flagged server and a named first server, the main server is that first server |
| DistroManager.FlaggedIdNotAName | app/assets/js/distromanager.js:235-236 | a flagged server's `id` is looked up as a `name`, so when no server is named by it the main server is null |
| DistroManager.MainServerNamed | app/assets/js/distromanager.js:288-290 | a main server that is found is a member of the list whose name is the stored main server |
| DistroManager.ResolvedLookup | app/assets/js/distromanager.js:224-281 | when every entry is named by its key, looking up a listed name finds that entry |
| DistroManager.Distribution.SetDevMode | app/assets/js/distromanager.js:334-342 | the flag takes the new value and the cached distribution is unchanged |
| DistroManager.Distribution.IsDevMode | app/assets/js/distromanager.js:344-346 | answers the current flag |
| DistroManager.Distribution.PullRemote | app/assets/js/distromanager.js:316-332 | the cached distribution becomes a new index built from the fetched JSON: its version and RSS feed are the JSON's, its servers are the listed entries resolved in order, and its main server is chosen from them; the developer-mode flag is unchanged |
| DistroManager.Distribution.GetDistribution | app/assets/js/distromanager.js:351-353 | answers the cached distribution |
| LandingNews.NextArticleWraps | app/assets/js/scripts/landing.js:547-549 | forward from the last article goes to the first, otherwise one on; back from the first goes to the last, otherwise one back |
| LandingNews.NextArticleCycles | app/assets/js/scripts/landing.js:547-549 | on a valid index forward is `+1` and backward is `-1` modulo the number of articles, and the result is a valid index |
| LandingNews.NextArticleInverse | app/assets/js/scripts/landing.js:547-549 | a step back undoes a step forward and vice versa |
| LandingNews.NextArticleOfNaN | app/assets/js/scripts/landing.js:548-549 | an `article` attribute that does not parse navigates to NaN |
| LandingNews.IsNewExactly | app/assets/js/scripts/landing.js:511-536 | the latest article is not new iff the cache is complete, at least as recent, holds the same hash and was dismissed |
| LandingNews.FreshCacheStillNew | app/assets/js/scripts/landing.js:538-545 | the rewritten cache keeps announcing the same article until it is dismissed |
| LandingNews.NewsState.CheckLatest | app/assets/js/scripts/landing.js:511-545 | answers the `isNew` decision on the old cache; a new article rewrites the cache with its date, hash and `dismissed: false`, and otherwise the cache is unchanged |
| LandingNews.CommentLabelForms | app/assets/js/scripts/landing.js:641-642 | no count gives `0 Comments`, `1` gives `1 Comment`, any other count `<n> Comments`; the label starts with the count and ends in `Comments` iff the count is not `1` |
| JsRuntime.ParseIntNatToString | app/assets/js/assetguard.js:47 | `parseInt` of a decimal numeral is its value |
| JsRuntime.StringToNumberNatToString | app/assets/js/assetguard.js:65 | `Number` of a decimal numeral is its value |
| JsRuntime.SplitJoin | app/assets/js/assetguard.js:43-44 | splitting a joined list on a separator absent from its parts gives the parts back |
| JsRuntime.ParseFloatOnePointEight | app/assets/js/assetguard.js:511 | `parseFloat` of `1.8` followed by text that does not continue the number is 1.8 |
| JsRuntime.ParseFloatOnePointSeven | app/assets/js/assetguard.js:511 | `parseFloat` of `1.7...` is not 1.8 |
| JsRuntime.AfterLastOf | app/assets/js/assetguard.js:509 | the text after the last separator is the final segment when that segment has no separator |
| JsRuntime.IndexOf | app/assets/js/assetguard.js:514 | `indexOf` answers the first occurrence, and -1 iff there is none |

## Left out

- I/O and the outside world: the file system, the registry, the environment, the drive list, spawned processes, HTTP requests and the configuration store are parameters (`Host`, the response datatypes, the news cache value). Their error paths are left out: a registry error while listing a key's subkeys is modelled as an absent key; a failing `javaVer.get('JavaHome', …)` (`assetguard.js:512-513`), where `res.value` on `undefined` throws inside the callback so the scan never resolves, is not modelled; `readdir` errors and a failing spawn are not modelled, and a malformed `JAVA_HOME` reads as not existing.
- Asynchrony: the registry callbacks and the awaited scans are modelled as a sequential fold in key and subkey order. Resolving once both keys are done is not modelled.
- Logging (`logger.debug`, `logger.info`, `console.log`) has no effect and is left out.
- `path.join` is modelled only for roots that need no normalisation. `..` segments and repeated separators are not normalised.
- `Number` and `parseFloat` do not model fractions, exponents beyond what the registry's `1.8` test needs, `Infinity` or hexadecimal floats. `parseFloat` is modelled as an exact decimal; binary floating-point rounding is not modelled.
- `toLowerCase` is modelled on ASCII letters only.
- JavaScript numbers are IEEE doubles, while `JsNum` holds unbounded integers. `parseInt` and `Number` of numerals above 2^53 round in the program and not in the model.
- JavaRanking.SortValidJavaArray: `Array.prototype.sort` is in place and its order with an inconsistent comparator depends on the engine. The model is a stable insertion sort by the comparator's key. It does not fix the order among results with equal keys, and it does not model updating in place. The key also ranks a number above NaN and holds two NaNs level, which the comparator does not: at `assetguard.js:662` and `:676` `NaN === NaN` is false and `NaN > NaN ? -1 : 1` answers 1 both ways (`JavaRanking.CompareNaNFields`). For GA versions such as `17+35`, whose minor and revision are NaN, the model's order is therefore not the program's.
- JavaRanking.CompareAgreesWithKey: stated only for results whose key fields are numbers, because on NaN fields the comparator does not follow the key (see above).
- JavaResolver.JrePreferred: stated only for versions whose fields are all numbers. For a JDK and a JRE both at `17+35` the comparator answers 1 both ways and the engine's sort decides the order.
- JavaResolver.DarwinJavaValidate: models `_darwinJavaValidate` with line 776 corrected to `includes`. As written it throws whenever `JAVA_HOME` is set and exists (`JavaResolver.DarwinJavaValidateAsWritten`, see "Findings").
- JavaResolver.ValidateJava: on macOS the dispatch uses the corrected resolver, so `JavaResolver.AnswerIsValidExecutable` speaks of the corrected program there.
- The Adoptium request URL and its query are not modelled. The lookup receives the parsed body, reduced to the fields the `find` predicate and the result read.
- The `loadMojangLauncherData` function, the `Asset` class and the rest of `JavaGuard` (downloads, extraction, events) are not part of this model.
- Malformed distribution JSON is not modelled: a server entry is a record of optional members, and `json.servers` is a list of names.
- Date parsing: the news dates are modelled as milliseconds. `new Date` of an unparsable string (an invalid date, with which every comparison is false) is not modelled. The article date is the `fr-FR` `toLocaleDateString` text built at `landing.js:638`, and `landing.js:510` passes that text to `new Date`, so an invalid date may well be the usual case; the model covers only dates that parse.
- DistroManager.Flagged: a server is the main server only when `mainServer` is the boolean `true`. `distromanager.js:235` tests truthiness, so a non-boolean truthy value, which the JSON model cannot hold, is not modelled.
- JavaPaths.Platform: nothing in the type stops `Other` from holding `win32`, `darwin` or `linux`; `JavaPaths.PlatformOf` never builds such a value.
- The SHA-1 digest of the article is an opaque string.
- The DOM, the news alert, the article rendering and the RSS fetch are not modelled.
- The `Commentaires` substitution at `landing.js:605` belongs to the rendering and is not modelled.

## Findings

| source | as written | input that shows it | evidently intended | confidence | as-written member | corrected member |
|---|---|---|---|---|---|---|
| app/assets/js/assetguard.js:776 | `jHome.contains('/Contents/Home')` calls a method JavaScript strings do not have, so `_darwinJavaValidate` throws a `TypeError` whenever `JAVA_HOME` is set and exists | macOS with `JAVA_HOME=/Library/Java/JavaVirtualMachines/x.jdk/Contents/Home` existing | `jHome.includes(...)`: cut `JAVA_HOME` at `/Contents/Home` and add the bundle root to the candidates | not executed | JavaResolver.DarwinAsWrittenThrows | JavaResolver.NormalizeBundleHome |
