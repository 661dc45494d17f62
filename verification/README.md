# Verified model of CapableDeputy's self-contained algorithms

CapableDeputy lets a language model act for a user behind approvals. This project models the parts of it that
decide what an approval binds, what a client may show, what a planner may see and when a process is stopped, and
proves what they guarantee, for every input and every run.

| component | modules |
|---|---|
| artifact identity, label state and the append-only store | `Texts`, `Sorting`, `Json`, `JsonReading`, `JsonShape`, `JsonCanonical`, `JsonObjects`, `Metadata`, `MetadataShape`, `Labels`, `LabelLattice`, `LabelMeaning`, `Artifacts`, `ArtifactIdentity`, `ArtifactFields`, `ArtifactShape`, `LabelReading`, `ArtifactReading`, `ArtifactStore` |
| the CommonMark sanitizer | `PyStrings`, `Patterns`, `CommonMark`, `CommonMarkPatterns`, `CommonMarkTheorems`, `CommonMarkShown`, `CommonMarkTags`, `CommonMarkFixed`, `CommonMarkTwice` |
| the length-framed source manifest | `Manifest`, `ManifestOrder` |
| tool-surface selection | `ToolSelection`, `ToolSelectionTheorems`, `ToolMandatory`, `ToolRules` |
| image markdown in answers | `ImageMarkdown`, `ImagePatterns`, `ImageAnswers`, `ImageRules` |
| the resource watchdog | `Watchdog` |
| coverage ratchet and coverage matrix | `CoverageRatchet`, `CoverageMatrix` |
| approval bundles | `Bundle` |

`dafny verify dfyconfig.toml` checks everything. Code that updates state step by step is a class or a method with
loops, proved equal to a specification function; the theorems are about those functions. What those functions mean is
proved as well, against references that do not use them: every scanner equals its regular expression under a
backtracking matcher (`Patterns`), and orders, names, thresholds and error cases are characterised in the source's own
literals (`ArtifactFields`, `ArtifactShape`, `LabelMeaning`, `ToolRules`, `ImageRules`, `ManifestOrder` and others).

## What the proofs found

Each of these is a place where the code does not do what its names, comments or property tests say without
qualification. The exact condition is proved both ways unless the row says otherwise.

- **A digest does not quite identify an artifact.** `json.dumps` writes a character beyond the first plane as two
  escapes, just as it writes two lone surrogates. Two artifacts have the same canonical text exactly when they
  agree on every reviewed field once surrogate pairs are fused (`CanonicalTextIff`, `DigestIff`;
  `PairsShareDigest` gives two titles with one digest). Without such pairs the digest is an identity
  (`PlainDigestIff`).
- **A saved digest is not always readable.** It is readable forever exactly when the metadata is serialisable, its
  keys stay sorted and distinct once fused, and so do the joined label tags (`SavedStaysReadable`,
  `ReadBackDigestIff`). Metadata that JSON cannot write is saved as one text and then refused on reading;
  `UnstableKeysUnreadable` is a dictionary, and `FusedCategoriesUnreadable` a pair of labels, that save and then fail
  their own digest check; `UnwritableUnreadable` is metadata of the first kind.
- **The label join commutes only up to ties.** The authority table gives every provenance it does not list the rank
  of `system-default`, and the first of equals wins. The join commutes exactly when no category is tied
  (`JoinCommutesIff`; `UnlistedTie` is a pair that does not), so always on the listed provenances
  (`JoinCommutesDeclared`), which are those that `tests/policy/test_label_state.py` draws from. Nor is composition
  deterministic, as the comment at `src/capabledeputy/policy/labels.py:145-146` has it: the tags of one state come in
  the order of a frozen set, and the result is independent of that order exactly when in each category all tags of
  the highest authority name the same provenance (`ComposeOrderIff`).
- **One pass of tag removal may leave a tag**, exactly when a removed tag stood between a leftover `<` or `</` and
  what completes it (`TagsLeftIff`). And the link stage, which runs later, can join two lines into a tag
  (`BrokenTargetMakesTag`). `FinalTagSources` shows that fenced lines, bridged tags and link targets that span lines
  are the only ways a tag gets into the final text. Both directions hold when no link target spans lines
  (`FinalTagByLineIff`), and in terms of the source lines when the links are safe as well (`FinalTagIff`).
- **Sanitizing is not idempotent.** On the source, three things can go wrong: a bridged tag (`BridgeTwice`), a link
  target that spans lines (`BrokenTargetTwice`), and a tag that hides a fence, so that removing it turns the later
  fences around (`HiddenFenceTwice`). Without any of them the second pass changes nothing (`SanitizedOnce`). When no
  target spans lines the condition is exact: line by line (`TwiceByLineIff`), and in terms of the source lines when
  the links are safe (`TwiceBySourceIff`).
- **An answer that leaves an image target open swallows the image appended to it.** Markdown that leads with an
  image is found behind an answer exactly unless the answer leaves a target open (`LeadingDistributesIff`); an open
  alt text does no harm to it. So a generated image reaches the user, and ensuring it is idempotent, exactly if the
  answer lets it through (`EnsureCitesIff`, `EnsureIdempotentIff`, `LeadingReachesIff`); `OpenTargetLosesImage` is an
  answer that does not. For markdown of any other form `ScanAppended` says exactly what the scanner finds.
- **Model curation can empty the planner's surface**, exactly at a cap of zero when the model is asked and names a
  visible tool (`CuratedEmptyIff`, `CuratedEmptyExample`); the deterministic path never does (`SelectionNonEmpty`).
- **A coverage group that is not measured loses its floor** (`FloorKeptIff`, `UnmeasuredGroupLost`).
- **Deciding a bundle forgets its errors**, so it may become approvable (`ActApprovableIff`, `ErrorForgotten`),
  and a bundle without a deadline gets one unless the setting is a number that is not positive (`ImmortalIff`). The
  comment at `src/capabledeputy/approval/bundle.py:51-53` says that an empty setting makes bundles immortal; the
  code takes it for the default of a day (`EmptySettingExpires`). The model follows the code.
- **A watchdog clock that reads zero restarts its timer**, because timers are tested for truth: whatever the clock does,
  the timer of a run holds its first reading that is not zero (`TimerIsFirstNonZero`), and that decides when a reason
  fires (`TimedReasonsIff`). On any clock that
  does not go back, a run is under-timed exactly when it began at zero and the clock has moved on
  (`TimerKeepsStartIff`, `UnderTimedIff`; `ZeroClockMisses` is a run of fifteen seconds that stops nothing).

## Model

| member | source | states |
|---|---|---|
| Json.ParseQuoted | src/capabledeputy/artifacts.py:135-139 | reading any escaped string, control characters, quotes and two-escape characters included, gives the string back with its surrogate pairs fused |
| JsonReading.ParsePrinted | src/capabledeputy/artifacts.py:134-140 | a parser of the JSON grammar inverts the printer on unbounded trees, whatever follows, up to fused surrogate pairs |
| JsonReading.PrintedEqualIff | src/capabledeputy/artifacts.py:134-140 | two trees print alike if and only if they agree once fused |
| JsonReading.LoadsPrinted | src/capabledeputy/artifact_store.py:87 | loading printed text gives the fused tree, each object read as a dictionary |
| JsonShape.ListJoined | src/capabledeputy/artifacts.py:134-139 | a list prints as its items joined by commas, with a space behind each or none |
| JsonShape.ObjectJoined | src/capabledeputy/artifacts.py:134-139 | an object prints as its quoted keys, colons and values joined likewise |
| JsonShape.QuotePlain | src/capabledeputy/artifacts.py:134-139 | printable ASCII without quotes and backslashes is quoted as it is |
| JsonShape.ShortEscapes | src/capabledeputy/artifacts.py:134-139 | the seven characters with a short escape are written with it |
| JsonShape.CodeEscapes | src/capabledeputy/artifacts.py:134-139 | others are written in lower-case hexadecimal, beyond the first plane as a pair; three examples |
| JsonShape.DecimalText | src/capabledeputy/artifacts.py:134-139 | whole numbers are written in decimal without a needless zero |
| JsonShape.HexRead | src/capabledeputy/artifact_store.py:87 | hexadecimal digits are read in either case |
| JsonShape.EscapesRead | src/capabledeputy/artifact_store.py:87 | exactly eight characters are read as short escapes, the slash among them |
| JsonShape.IntegerForms | src/capabledeputy/artifact_store.py:87 | a text is read as a whole number if and only if it is digits, with or without a minus |
| JsonShape.FloatForms | src/capabledeputy/artifact_store.py:87 | points and exponents of either sign make floats |
| JsonShape.FloatNames | src/capabledeputy/artifact_store.py:87 | and so do the three names that Python writes for values that are no numbers |
| JsonShape.SpacesSkipped | src/capabledeputy/artifact_store.py:87 | the reader passes over exactly the four white-space characters |
| JsonCanonical.SortedEqualIff | src/capabledeputy/artifacts.py:137 | sorting keys forgets the insertion order of dictionaries and nothing else |
| JsonCanonical.DumpsEqualIff | src/capabledeputy/artifacts.py:134-140 | sorted text is equal if and only if the sorted, fused trees are |
| JsonCanonical.DumpsIdentifiesValue | src/capabledeputy/artifacts.py:134-140 | without surrogate pairs sorted text is equal if and only if the unordered values are |
| JsonCanonical.ReloadedPrintsSameIff | src/capabledeputy/artifact_store.py:64-90 | printing a loaded tree again gives the same text if and only if its keys were stable |
| JsonCanonical.FusedKeysAreStable | src/capabledeputy/artifact_store.py:64-90 | a tree without surrogate pairs has stable keys |
| JsonObjects.GetReloaded | src/capabledeputy/artifacts.py:102-130 | looking a plain key up in a stored and loaded dictionary gives the loaded value that was stored under it |
| JsonObjects.FieldwiseEqualIff | src/capabledeputy/artifacts.py:79-90 | dictionaries over the same keys print alike if and only if their values do, key by key |
| JsonObjects.GetDictOf | src/capabledeputy/artifact_store.py:87 | a dictionary made from a list of entries has the last value under each key and no other key |
| Metadata.JsonableWellFormed | src/capabledeputy/artifacts.py:182-191 | whatever goes in, the result is a serialisable tree without repeated keys |
| Metadata.JsonableFixesJson | src/capabledeputy/artifacts.py:182-191 | a value that is already plain JSON is left as it is |
| Metadata.JsonableIdempotent | src/capabledeputy/artifacts.py:182-191 | normalising twice is normalising once |
| MetadataShape.PlainBecome | src/capabledeputy/artifacts.py:182-191 | plain values become themselves, an opaque one its text |
| MetadataShape.ItemsBecome | src/capabledeputy/artifacts.py:182-191 | a list and a tuple become the list of what their items become, or their text if JSON cannot write some item |
| MetadataShape.EntriesBecome | src/capabledeputy/artifacts.py:182-191 | a dictionary has under the text of each key what the last value for it becomes, or is its text if JSON cannot write it |
| MetadataShape.NoOtherKeys | src/capabledeputy/artifacts.py:182-191 | it has no other keys |
| MetadataShape.ComparableIff | src/capabledeputy/artifacts.py:183-186 | sorting accepts a dictionary if and only if JSON accepts its keys and any two of them are both texts or both numbers |
| Labels.ComposedCategory | src/capabledeputy/policy/labels.py:194-205 | a composed state holds one merged tag for a category that had any, and none for one that had none |
| Labels.JoinAbsorbs | src/capabledeputy/policy/labels.py:219-226 | joining the same source labels in again changes nothing |
| Labels.JoinDominates | src/capabledeputy/policy/labels.py:219-245 | the join dominates both sides |
| LabelLattice.JoinAssociates | src/capabledeputy/policy/labels.py:208-226 | the join is associative, tiers, risks, provenances and levels alike |
| LabelLattice.JoinIdempotent | src/capabledeputy/policy/labels.py:208-226 | a state joined with itself is composed, and a composed one is unchanged |
| LabelLattice.JoinCommutesIff | src/capabledeputy/policy/labels.py:145-160 | the join commutes if and only if no category has different best provenances of equal authority on the two sides |
| LabelLattice.UnlistedTie | src/capabledeputy/policy/labels.py:159-203 | two states of one category with different unlisted provenances, joined in either order, differ |
| LabelLattice.ComposeOrderIff | src/capabledeputy/policy/labels.py:194-205 | composition gives the same for every order of the tags if and only if in each category all tags of the highest authority name one provenance |
| LabelLattice.JoinOrderFree | src/capabledeputy/policy/labels.py:208-226 | then a join is the same whatever order its sets are iterated in and on whichever side they stand |
| LabelLattice.JoinCommutesDeclared | src/capabledeputy/policy/labels.py:145-155 | it commutes on all states whose provenances the authority table lists |
| LabelLattice.JoinIsLeast | src/capabledeputy/policy/labels.py:219-245 | a state dominates the join if and only if it dominates both sides |
| LabelMeaning.JoinedTier | src/capabledeputy/policy/labels.py:194-205 | the tier of a joined tag is prohibited if and only if a side has that tier in its category, else restricted if and only if one has that, and so on |
| LabelMeaning.JoinedCategory | src/capabledeputy/policy/labels.py:194-205 | a category, and a risk in it, is in the join if and only if a side has it |
| LabelMeaning.JoinedRisks | src/capabledeputy/policy/labels.py:202 | the risks of a joined tag are listed once each, in the order of their code points |
| LabelMeaning.JoinedProvenance | src/capabledeputy/policy/labels.py:145-160 | the provenance of a joined tag is that of the first tag with the highest standing, human-declared highest, raise-only-inspector lowest, unlisted ones as system-default |
| LabelMeaning.JoinedLevel | src/capabledeputy/policy/labels.py:208-216 | a level is in the join if and only if a side has it |
| LabelReading.LabelsRoundTrip | src/capabledeputy/policy/labels.py:171-191 | reading written labels gives them back in memory; through JSON text it gives them fused, what became equal once |
| LabelReading.ReadLabelsStableIff | src/capabledeputy/policy/labels.py:171-191 | labels read from text are written again as they were, fused, if and only if fusing left the tags distinct and in order |
| LabelReading.StableRead | src/capabledeputy/policy/labels.py:171-191 | stable labels are read with their texts fused, and labels without surrogate pairs are stable and read unchanged |
| LabelReading.JoinedLabels | src/capabledeputy/policy/labels.py:194-226 | a join lists each tag and level once in written order, and has no surrogate pair unless a side had one |
| ArtifactFields.TagIff | src/capabledeputy/policy/labels.py:101-107 | exactly which tag any dictionary is read as, defaults included |
| ArtifactFields.LevelIff | src/capabledeputy/policy/labels.py:125-128 | exactly which level any dictionary is read as |
| ArtifactFields.LabelsIff | src/capabledeputy/policy/labels.py:182-191 | exactly which label state is read: nothing and null are empty, missing lists too, each list is a set |
| ArtifactFields.ReadIff | src/capabledeputy/artifacts.py:101-131 | exactly which artifact any dictionary is read as, key by key, with both keys and the default of each field |
| ArtifactFields.DefaultsTaken | src/capabledeputy/artifacts.py:101-131 | no effect means review only, no destination the target, no content type plain text, no metadata none, no time now |
| ArtifactFields.RefusedIff | src/capabledeputy/artifacts.py:66-131 | exactly when and with which error a dictionary is refused: the first of seven faults in order |
| ArtifactShape.CanonicalTextIs | src/capabledeputy/artifacts.py:79-90 | the canonical text character by character: nine keys in order, compact, labels sorted, metadata normalised |
| ArtifactShape.LabelsPrinted | src/capabledeputy/policy/labels.py:171-179 | the labels in it: tags by category with four keys in order, levels by name |
| ArtifactShape.StoredNames | src/capabledeputy/artifacts.py:92-99 | the stored dictionary has the hash of that text, the time, and the name, by default the first sixteen characters of the hash |
| ArtifactReading.DictRoundTrip | src/capabledeputy/artifacts.py:92-131 | a valid artifact's dictionary reads back if and only if the metadata is serialisable; the result has the same canonical text, digest and dictionary |
| ArtifactReading.TextRoundTrip | src/capabledeputy/artifacts.py:101-131 | the stored text loads as a dictionary, which reads as the fused artifact if and only if the metadata was serialisable |
| ArtifactReading.CanonicalTextIff | src/capabledeputy/artifacts.py:79-90 | two artifacts have the same canonical text if and only if they agree, fused, on type, title, content, content type, target, destination, effect, labels and normalised metadata |
| ArtifactReading.DigestIff | src/capabledeputy/artifacts.py:134-140 | the same for digests, the hash being free of collisions |
| ArtifactReading.PlainDigestIff | src/capabledeputy/artifacts.py:134-140 | without surrogate pairs equal digests mean equal fields, equal labels and equal unordered metadata, and conversely |
| ArtifactReading.PairsShareDigest | src/capabledeputy/artifacts.py:134-140 | two artifacts with different titles and one digest |
| ArtifactReading.ReadBackDigestIff | src/capabledeputy/artifact_store.py:87-90 | what is read back has the stored digest if and only if the metadata keys and the label tags were stable |
| ArtifactStore.Store.Save | src/capabledeputy/artifact_store.py:49-70 | the table after a save: at most the row of the joined artifact is added, no row changes, and the digest of the joined artifact is returned unless a source is blank |
| ArtifactStore.AskedIff | src/capabledeputy/artifact_store.py:58-59 | a save asks for a row, under its own session and task, if and only if neither is blank |
| ArtifactStore.Store.ReadInternal | src/capabledeputy/artifact_store.py:72-90 | a read looks up its key, and what it returns has the digest that was asked for |
| ArtifactStore.RunKeeps | src/capabledeputy/artifact_store.py:21-25 | over every run of saves rows are only added, every row was written by a save, and every new key was returned by one |
| ArtifactStore.SavedStaysReadable | src/capabledeputy/artifact_store.py:49-90 | a returned digest reads, after any later saves, if and only if the artifact was readable; with that digest, the reviewed fields and exactly the joined labels, fused; otherwise the error is determined |
| ArtifactStore.ResaveUnchanged | src/capabledeputy/artifact_store.py:66-70 | saving the same content again, at any later time, returns the same digest and leaves the table as it was |
| ArtifactStore.ReadThenSaveIff | src/capabledeputy/artifact_store.py:49-90 | saving what was read, from the same source, comes to the same key if and only if the source labels add nothing to the fused ones, and then changes nothing |
| ArtifactStore.PlainSourceAddsNothing | src/capabledeputy/artifact_store.py:62 | source labels add nothing when the joined labels have no surrogate pair |
| ArtifactStore.OnlyOwnKeys | src/capabledeputy/artifact_store.py:66-86 | over every run of saves a key that none of them returned reads as it did before |
| ArtifactStore.UnstableKeysUnreadable | src/capabledeputy/artifact_store.py:88-89 | metadata whose two keys fuse into one saves without complaint and always fails the digest check |
| ArtifactStore.FusedCategoriesUnreadable | src/capabledeputy/artifact_store.py:88-89 | two label categories that fuse into one save without complaint and always fail the digest check |
| ArtifactStore.UnwritableUnreadable | src/capabledeputy/artifacts.py:116-118 | metadata that JSON cannot write saves without complaint and is always refused on reading |
| CommonMark.StripOneLine | src/capabledeputy/commonmark.py:146-157 | one round of the line loop gives the specified line and moves both flags as the fence state does |
| CommonMark.StripLines | src/capabledeputy/commonmark.py:142-157 | the loop with its two flags produces the specified lines |
| CommonMark.StripHtmlOutsideCodeFences | src/capabledeputy/commonmark.py:141-158 | the whole function equals its specification |
| CommonMarkPatterns.AnsiIsPattern | src/capabledeputy/commonmark.py:18-20 | the terminal-sequence scanner finds what the expression matches, greedy stars and backtracking included |
| CommonMarkPatterns.ControlIs | src/capabledeputy/commonmark.py:21 | the control characters removed are those of the class |
| CommonMarkPatterns.TagIsPattern | src/capabledeputy/commonmark.py:22 | the tag scanner finds what the expression matches |
| CommonMarkPatterns.LinkIsPattern | src/capabledeputy/commonmark.py:23 | the link scanner finds what the expression matches |
| CommonMarkPatterns.FenceIsPattern | src/capabledeputy/commonmark.py:25 | a line starts a fence if and only if the expression matches it |
| CommonMarkTheorems.AnsiRemovedOnce | src/capabledeputy/commonmark.py:18-20 | removing terminal sequences twice is removing them once |
| CommonMarkTheorems.TagsLeftIff | src/capabledeputy/commonmark.py:22 | one leftmost pass leaves a tag if and only if a removed tag was bridged by leftovers around it |
| CommonMarkTheorems.NoAdjacentNoBridge | src/capabledeputy/commonmark.py:22 | no tag directly behind a `<` or a `/`, no bridge |
| CommonMarkTheorems.RemoveTagsFixes | src/capabledeputy/commonmark.py:22 | the pass changes a line if and only if it has a tag |
| CommonMarkTheorems.StripTwiceIff | src/capabledeputy/commonmark.py:157 | the pass is idempotent on a line if and only if nothing was bridged |
| CommonMarkTheorems.BridgeExample | src/capabledeputy/commonmark.py:22 | `<<b>b>`, for any letter, becomes a tag |
| CommonMarkTheorems.FenceAtIff | src/capabledeputy/commonmark.py:143-156 | a fence is open at a line if and only if an earlier line opened it and no line since starts with its marker |
| CommonMarkTheorems.StripLinesFacts | src/capabledeputy/commonmark.py:141-158 | the number of lines is kept, each line is a subsequence of its own, fences and all between them are unchanged, and outside a tag is left only over a bridge |
| CommonMarkTheorems.LinksSanitized | src/capabledeputy/commonmark.py:161-166 | the link stage is idempotent and leaves its own scanner only safe, trimmed targets |
| CommonMarkTheorems.FinalLinksSafe | src/capabledeputy/commonmark.py:110-111 | so does the final text, after trimming; the link stage would change nothing in it |
| CommonMarkShown.LinkReplaced | src/capabledeputy/commonmark.py:161-166 | behind any text, a target of one of the six schemes is kept trimmed and every other one becomes `unsafe-link`; the rest is treated alike |
| CommonMarkShown.FinalSchemes | src/capabledeputy/commonmark.py:24 | every target that the scanner finds in the final text is trimmed and has one of the six schemes |
| CommonMarkShown.SequenceInvisible | src/capabledeputy/commonmark.py:107 | a terminal sequence makes no difference to what is shown |
| CommonMarkShown.ControlInvisible | src/capabledeputy/commonmark.py:107 | nor does a control character other than tab, newline, return and escape |
| CommonMarkShown.LineEndingsAlike | src/capabledeputy/commonmark.py:107-108 | plain lines are shown alike whichever of the three line endings separates them |
| CommonMarkShown.BreaksLine | src/capabledeputy/commonmark.py:145 | a character ends a line if and only if it is one of ten |
| CommonMarkShown.TrimmedAway | src/capabledeputy/commonmark.py:111 | a character is trimmed if and only if it is one of the twenty-nine |
| CommonMarkTheorems.FinalShowable | src/capabledeputy/commonmark.py:100-111 | the final text has no C0 control character but tab and newline, and no DEL |
| CommonMarkTags.LinksBelow | src/capabledeputy/commonmark.py:161-166 | when no target spans lines the link stage brings no tag about |
| CommonMarkTags.FinalTagSources | src/capabledeputy/commonmark.py:103-111 | a tag in the final text comes from a fenced line, from a bridge or from a target that spanned lines |
| CommonMarkTwice.FinalTagByLineIff | src/capabledeputy/commonmark.py:103-111 | when no link target spans lines the final text has a tag if and only if some stripped line has one once its own links are cleaned |
| CommonMarkTwice.FinalTagIff | src/capabledeputy/commonmark.py:103-111 | when the links are safe and on one line the final text has a tag if and only if a fenced line had one or a removed one was bridged |
| CommonMarkTags.BrokenTargetMakesTag | src/capabledeputy/commonmark.py:109-110 | two lines without a tag whose link target holds the line break between them become a tag |
| CommonMarkFixed.UnchangedIff | src/capabledeputy/commonmark.py:100-111 | the sanitizer leaves a text intact if and only if it is trimmed, showable, broken only at newlines, free of tags outside fences, and links only to safe targets |
| CommonMarkFixed.SanitizeTwiceIff | src/capabledeputy/commonmark.py:100-111 | sanitizing is idempotent on a text if and only if its result has no tag outside fences |
| CommonMarkTwice.SanitizedOnce | src/capabledeputy/commonmark.py:100-111 | sanitizing is idempotent on every source in which no removed tag is bridged, no tag hides a fence and no link target spans lines |
| CommonMarkTwice.TwiceByLineIff | src/capabledeputy/commonmark.py:100-111 | when no link target spans lines, sanitizing again changes nothing if and only if no stripped line outside the fences has a tag once its own links are cleaned |
| CommonMarkTwice.TwiceBySourceIff | src/capabledeputy/commonmark.py:100-111 | when the links are also safe, sanitizing again changes nothing if and only if no line that ends up outside fences was fenced with a tag or had a removed tag bridged |
| CommonMarkTwice.BridgeTwice | src/capabledeputy/commonmark.py:22 | sanitizing `<<b>b>`, for any letter, twice is not sanitizing it once |
| CommonMarkTwice.BrokenTargetTwice | src/capabledeputy/commonmark.py:109-110 | nor is it for a text whose link target holds a line break between `<a](` and `)>` |
| CommonMarkTwice.HiddenFenceTwice | src/capabledeputy/commonmark.py:145-157 | nor for three lines without links or bridged tags, in which a tag hides a fence |
| Manifest.DecodeStream | scripts/record-build-identity.py:47-48 | a decoder inverts the 8-byte big-endian framing of any list of names and contents |
| Manifest.StreamDecoded | scripts/record-build-identity.py:47-48 | and conversely: no other bytes decode to the same list |
| Manifest.ContentManifest | scripts/record-build-identity.py:32-50 | the loop over a directory walk feeds the digest the stream of the kept files in path order, lists exactly them, and fails exactly when a kept entry escapes the root |
| Manifest.StreamIdentifiesTree | scripts/record-build-identity.py:32-50 | two walks, in any order, give the same stream if and only if they hold the same bytes under the same paths |
| Manifest.UntrackedManifest | scripts/record-build-identity.py:68-88 | the untracked loop counts and frames the sorted names; the first bad name decides how it ends |
| Manifest.UntrackedIdentifies | scripts/record-build-identity.py:70-77 | equal streams mean equal names with equal contents |
| ManifestOrder.PathOrder | scripts/record-build-identity.py:38 | paths are ordered part by part |
| ManifestOrder.ListedExactly | scripts/record-build-identity.py:36-50 | a snapshot fails if and only if an entry outside `.build` escapes; else it lists exactly the files outside `.build`, in path order, each by its path with slashes and its bytes |
| ManifestOrder.FramesShape | scripts/record-build-identity.py:47-48 | what is fed of a file: the name, then the contents, each behind its length in eight bytes, the last one lowest |
| ManifestOrder.PiecesOfTerminated | scripts/record-build-identity.py:70 | splitting what git prints gives the names back |
| ToolSelection.SelectToolsForTurn | src/capabledeputy/agent/tool_selection.py:218-352 | the loops that fill the selection produce the specified one |
| ToolSelection.PickMandatory | src/capabledeputy/agent/tool_selection.py:305-318 | the first loop takes the first visible mandatory names, up to the cap |
| ToolSelection.PickRanked | src/capabledeputy/agent/tool_selection.py:320-327 | the second loop fills the rest with ranked tools whose names are new, and records the score of every tool it looks at |
| ToolSelection.AddMissing | src/capabledeputy/agent/tool_selection.py:425-430 | the widening loop appends the visible tools whose names are new |
| ToolSelection.WidenToolSurface | src/capabledeputy/agent/tool_selection.py:414-444 | widening produces the specified selection |
| ToolSelectionTheorems.MailSurfaceIdempotent | src/capabledeputy/agent/tool_selection.py:76-117 | filtering mail twice is filtering it once |
| ToolSelectionTheorems.RetrievalMembers | src/capabledeputy/agent/tool_selection.py:305-329 | a retrieval selection is the mandatory prefix and the best others up to the cap, nothing twice |
| ToolSelectionTheorems.RetrievalSelectsBest | src/capabledeputy/agent/tool_selection.py:166-181 | every selected tool that is not mandatory has a higher score than every narrowed tool left out, or the same and an earlier name; a retrieved tool is left out only at the cap |
| ToolSelectionTheorems.ScoresAccount | src/capabledeputy/agent/tool_selection.py:320-350 | every recorded score is that of a selected tool, and every selected tool has one unless it is recorded as mandatory |
| ToolSelectionTheorems.SelectInside | src/capabledeputy/agent/tool_selection.py:218-352 | the selection is duplicate-free and visible, and on the retrieval path within the cap and listed by name |
| ToolSelectionTheorems.SelectionNonEmpty | src/capabledeputy/agent/tool_selection.py:329-343 | the selection is empty if and only if the filtered surface is; with both limits at least one the fallback is never taken |
| ToolSelectionTheorems.PrioritySorted | src/capabledeputy/agent/tool_selection.py:397-402 | sorting by priority lists the recorded tools first, in their order, and the others by name |
| ToolSelectionTheorems.CurationKeepsMandatory | src/capabledeputy/agent/tool_selection.py:385-411 | whatever the model replies, recorded tools are all kept and come first, the cap holds, and everything else was named by the reply and visible |
| ToolSelectionTheorems.UncuratedSame | src/capabledeputy/agent/tool_selection.py:366-383 | without curation the asynchronous path is the synchronous one |
| ToolSelectionTheorems.CuratedEmptyIff | src/capabledeputy/agent/tool_selection.py:366-402 | the asynchronous selection is empty if and only if the surface is, or the cap is zero and the model is asked and names a visible tool |
| ToolSelectionTheorems.CuratedEmptyExample | src/capabledeputy/agent/tool_selection.py:385-402 | one visible tool, a cap of zero and a model that names it: nothing is left, and without the reply something is |
| ToolSelectionTheorems.MissingNameIrrelevant | src/capabledeputy/agent/tool_selection.py:431-435 | the name the model asked for never changes what widening gives |
| ToolSelectionTheorems.WidenReachesAll | src/capabledeputy/agent/tool_selection.py:414-444 | from any surface of visible tools one widening holds exactly what was there and what is offered, by name, and another changes nothing |
| ToolSelectionTheorems.WidenGivesAll | src/capabledeputy/agent/tool_selection.py:425-437 | from a surface inside the offered list it gives exactly that list, by name |
| ToolSelectionTheorems.WidenAfterAnything | src/capabledeputy/agent/tool_selection.py:218-444 | the same after every interleaving of selections, curated selections and widenings |
| ToolSelectionTheorems.SurfaceStaysInside | src/capabledeputy/agent/tool_selection.py:218-444 | over every interleaving of select, curated select with any reply and widen the planner sees only visible tools, each once |
| ToolMandatory.MandatoryTaken | src/capabledeputy/agent/tool_selection.py:309-318 | a visible mandatory tool is taken or mandatory tools fill the cap; an always-mandatory one gives way only to others of its kind |
| ToolMandatory.MandatorySelected | src/capabledeputy/agent/tool_selection.py:264-329 | on the retrieval path every visible mandatory tool is selected and recorded unless mandatory tools fill the cap |
| ToolMandatory.RealMailOnly | src/capabledeputy/agent/tool_selection.py:76-117 | with real mail registered no seeded mail is shown on a mail turn, and only seeded mail, replaced listings or a pure summary hide a tool |
| ToolRules.MailShownIff | src/capabledeputy/agent/tool_selection.py:76-117 | exactly which tools the mail filter leaves, in the names of the tools |
| ToolRules.DemandedIff | src/capabledeputy/agent/tool_selection.py:264-303 | exactly which visible tools a turn makes mandatory, reason by reason |
| ToolRules.RecordedIff | src/capabledeputy/agent/tool_selection.py:264-318 | on the retrieval path what is recorded was demanded and is selected, and what is demanded is recorded unless mandatory tools fill the cap |
| ToolRules.RecordedOrder | src/capabledeputy/agent/tool_selection.py:309-318 | always-mandatory names come first, and by name; so do they before a demanded one that is left out |
| ToolRules.FamilyIs | src/capabledeputy/agent/tool_families.py:89-93 | the family of a purpose is the first with that handle, else `general` |
| ToolRules.NarrowedIff | src/capabledeputy/agent/tool_selection.py:119-164 | exactly which tools are ranked: those that fit the family, or all when none does, without the two older searches beside the keyed one |
| ToolRules.SelectHow | src/capabledeputy/agent/tool_selection.py:236-343 | which way a selection is made, by its inputs alone; the fallback if and only if the cap is zero, or nothing may be retrieved and nothing is demanded |
| ToolRules.CandidatesBest | src/capabledeputy/agent/tool_selection.py:166-181 | the candidates are the best ranked narrowed tools, as many as may be retrieved, in order of score and name; off the retrieval path the whole surface |
| ToolRules.CuratesExactly | src/capabledeputy/agent/tool_selection.py:378-395 | the model's reply is used if and only if the mode asks for it, the surface is large enough, and it or the record names a tool of the surface |
| ToolRules.CuratedByName | src/capabledeputy/agent/tool_selection.py:397-402 | behind the recorded tools a curated selection goes by name; a named tool is left out only at the cap, for earlier names |
| ImageMarkdown.ScanDistributes | src/capabledeputy/agent/chat_turn.py:126 | scanning distributes over appending a text behind a blank line when no image is left open |
| ImageMarkdown.OpenWitness | src/capabledeputy/agent/chat_turn.py:126 | for every text that leaves an image open, a text whose appending disturbs the scan |
| ImageMarkdown.ScanDistributesIff | src/capabledeputy/agent/chat_turn.py:224-225 | scanning distributes over every appended text if and only if no image is left open |
| ImageMarkdown.ScanAppended | src/capabledeputy/agent/chat_turn.py:126 | for any two texts, the paths found in one with the other behind a blank line: an open alt text takes the first `]`, an open target runs to the first `)` |
| ImageMarkdown.LeadingDistributesIff | src/capabledeputy/agent/chat_turn.py:126 | markdown that leads with an image is found behind an answer if and only if the answer leaves no image target open |
| ImagePatterns.ImageIsPattern | src/capabledeputy/agent/chat_turn.py:126 | the image scanner finds what the expression matches, and its group |
| ImageAnswers.EnsureCitesIff | src/capabledeputy/agent/chat_turn.py:362-391 | a generated image is shown in the result if and only if the answer shows one, is blank, or ends so that the scanner finds one in the markdown appended to it |
| ImageAnswers.LeadingReachesIff | src/capabledeputy/agent/chat_turn.py:362-391 | for markdown that leads with an image that is: unless the answer leaves an image target open, a second image or a collision of paths aside |
| ImageAnswers.EnsureIdempotentIff | src/capabledeputy/agent/chat_turn.py:362-391 | ensuring twice is ensuring once if and only if no image was generated or the answer lets it through |
| ImageAnswers.OpenTargetLosesImage | src/capabledeputy/agent/chat_turn.py:386-391 | the answer `![a](` loses the only image, and each pass appends it again |
| ImageAnswers.RepairedPathsAllowed | src/capabledeputy/agent/chat_turn.py:343-359 | after repair only allowed work paths are shown, if and only if: without tool markdown none was foreign before, with it the answer was not hallucinated or the markdown shows none |
| ImageAnswers.RepairedAnswerCitesIff | src/capabledeputy/agent/chat_turn.py:343-391 | repair and ensure together show a generated image if and only if the answer was hallucinated or lets it through, and then another pass changes nothing |
| ImageAnswers.CollectPriorPaths | src/capabledeputy/agent/chat_turn.py:269-277 | the two loops collect exactly the work paths that some text shows |
| ImageRules.PreferredIff | src/capabledeputy/agent/chat_turn.py:302-317 | the preferred markdown is that of the first admitted generator call whose markdown is not blank, trimmed |
| ImageRules.EnsureIs | src/capabledeputy/agent/chat_turn.py:362-391 | what ensuring makes of an answer: itself, the markdown, or the answer, a blank line and the markdown |
| ImageRules.WorkIff | src/capabledeputy/agent/chat_turn.py:232-236 | a path is a work path if and only if it lies in a directory of generated images and is no web address |
| ImageRules.HallucinatedIff | src/capabledeputy/agent/chat_turn.py:280-299 | exactly which answers are taken for hallucinated |
| Watchdog.Watch | scripts/guard-daemon-resources.py:92-115 | the loop with two running timers stops at the specified reading for the specified reason |
| Watchdog.TimerIsRunStart | scripts/guard-daemon-resources.py:99-100 | a timer holds the time of the first reading of the current unbroken run, and is unset outside a run |
| Watchdog.TimerIsFirstNonZero | scripts/guard-daemon-resources.py:99-100 | on every clock the timer of a run holds the first of its readings that is not zero, and zero while there is none |
| Watchdog.TimedReasonsIff | scripts/guard-daemon-resources.py:49-64 | on every clock each sustained reason fires if and only if the run has lasted its limit since that reading and nothing of higher priority applies; nothing fires if and only if none applies |
| Watchdog.SustainedReasonsIff | scripts/guard-daemon-resources.py:49-64 | on a clock that never reads zero the same holds since the start of the run |
| Watchdog.StopsInTime | scripts/guard-daemon-resources.py:95-115 | on any clock that does not go back, with gaps of at most G, a sustained condition stops the child less than its limit plus G after any of its readings that is not zero |
| Watchdog.PressureStops | scripts/guard-daemon-resources.py:59-99 | warning pressure for fifteen seconds stops the child within a gap |
| Watchdog.CpuStops | scripts/guard-daemon-resources.py:61-100 | 200 percent for thirty seconds stops the child within a gap |
| Watchdog.ImmediateReasonsIff | scripts/guard-daemon-resources.py:56-59 | critical pressure, the memory limit and a failed sample stop the child at once, whatever came before |
| Watchdog.QuietNeverStops | scripts/guard-daemon-resources.py:56-110 | below all four thresholds nothing ever stops the child |
| Watchdog.TimerKeepsStartIff | scripts/guard-daemon-resources.py:99-100 | on any clock that does not go back the timer holds the start of the run if and only if the run did not begin at zero or the clock still reads zero |
| Watchdog.UnderTimedIff | scripts/guard-daemon-resources.py:99-104 | a run is timed short if and only if it began at zero and the clock has moved on |
| Watchdog.ZeroClockMisses | scripts/guard-daemon-resources.py:95-110 | a run from zero to fifteen seconds, read at its ends, does not stop the child |
| CoverageRatchet.Baseline.Update | scripts/coverage_ratchet.py:168-205 | an update is refused exactly when a floor would fall without a reset, and then changes nothing; else it leaves exactly the measured groups |
| CoverageRatchet.Baseline.Check | scripts/coverage_ratchet.py:208-242 | a check passes exactly when the groups are the measured ones and each is within the tolerance of its floor |
| CoverageRatchet.AcceptedFloors | scripts/coverage_ratchet.py:178-202 | an accepted update sets each measured group's floor to what was measured, records its numbers and a higher old floor, and keeps no other group |
| CoverageRatchet.FloorKeptIff | scripts/coverage_ratchet.py:176 | without a reset a group keeps or raises its floor if and only if the update is refused or measures it |
| CoverageRatchet.UnmeasuredGroupLost | scripts/coverage_ratchet.py:176 | an update that measures nothing is accepted and drops every floor |
| CoverageRatchet.FloorsNeverFall | scripts/coverage_ratchet.py:168-205 | over every run of updates without a reset, refused ones included, the floor of a group they all measure never falls |
| CoverageRatchet.ToleranceNeverCompounds | scripts/coverage_ratchet.py:226-229 | a passing check is within one tolerance of every floor the group had during the run |
| CoverageRatchet.CheckAfterUpdatePasses | scripts/coverage_ratchet.py:168-242 | a check right after an accepted update passes |
| CoverageRatchet.PassesExactly | scripts/coverage_ratchet.py:208-242 | a check passes if and only if the groups are the measured ones and none is more than one and a half points below its floor |
| CoverageMatrix.CollectRows | scripts/coverage_matrix.py:83-100 | each package is the sum of its modules in all four fields, none is missing or made up, and totals are conserved |
| CoverageMatrix.ModuleIff | scripts/coverage_matrix.py:68-76 | the module name of a file: below the source directory, no package, dots for slashes |
| CoverageMatrix.PackageIff | scripts/coverage_matrix.py:79-80 | the package is what stands before the first dot, else `(root)` |
| CoverageMatrix.RowsIff | scripts/coverage_matrix.py:83-95 | exactly the modules of the source give a row, with their own four counts |
| CoverageMatrix.SumFiles | scripts/coverage_ratchet.py:99-104 | the loop computes both sums |
| CoverageMatrix.GroupBetweenFiles | scripts/coverage_ratchet.py:99-106 | a group's percentage lies between the least and the greatest of its files with statements, and is 100 without any |
| Bundle.FirstActionDecides | src/capabledeputy/approval/bundle.py:203-233 | over every sequence of decisions the first one decides the pending gates; no other gate, no step and no finite deadline ever changes |
| Bundle.GateAfter | src/capabledeputy/approval/bundle.py:203-233 | after a first approval what was pending is approved, after a first denial denied, whatever follows; other gates stay |
| Bundle.ExpiredForever | src/capabledeputy/approval/bundle.py:181-188 | an expired bundle stays expired, whatever is decided and however late |
| Bundle.ImmortalIff | src/capabledeputy/approval/bundle.py:57-67 | under a raw setting a bundle without a deadline stays so if and only if nothing is decided or the setting is a number that is not positive; else the first decision fixes it, at as many seconds as the setting says or at a day |
| Bundle.EmptySettingExpires | src/capabledeputy/approval/bundle.py:171-188 | under the empty setting a decided bundle is expired if and only if a day has passed since it was made |
| Bundle.LookupCommutes | src/capabledeputy/approval/bundle.py:235-239 | looking a gate up after a decision finds the decided version of the gate found before |
| Bundle.LookupFirst | src/capabledeputy/approval/bundle.py:235-239 | a lookup finds the first gate of its step and tool |
| Bundle.ActApprovableIff | src/capabledeputy/approval/bundle.py:191-233 | a bundle is approvable if and only if no error is recorded, or something was decided since, and no gate would be denied |
| Bundle.ErrorForgotten | src/capabledeputy/approval/bundle.py:197-233 | a bundle with a recorded error is not approvable, and becomes so by any decision unless a gate would be denied |

## Left out

- CommonMarkTags.FinalTagSources: one way only; `CommonMarkTwice.FinalTagByLineIff` is exact when no link target spans lines, `FinalTagIff` in terms of the source lines when the links are also safe. A target that spans lines need not make a tag, and one with an unsafe scheme takes the tags in it away.
- CommonMarkTwice.SanitizedOnce: one way only. `TwiceByLineIff` and `TwiceBySourceIff` are exact when no link target spans lines. When one does, cleaning it can drop whole lines of the source, fences among them, and join others, so that no statement about single source lines decides the outcome; for such texts there is only `CommonMarkFixed.SanitizeTwiceIff`, on the result.
- LabelReading.ReadLabelsStableIff: when fusing makes two categories one and the tags differ otherwise, the source lists them in the order of a frozen set; the model keeps their order in the text.
- SHA-256 is an uninterpreted function without collisions (`Host.sha`), and Python's `str()` of a whole value a parameter that gives a non-empty text for a dictionary (`Host.str`).
- Floats are their `repr` text, which Python reads back; rounding and float addition in the ratchet and the watchdog are exact reals.
- Metadata is a finite tree: circular values and Python's digit limit for huge integers are not part of this model.
- Python's frozen sets are lists in some iteration order; a list read back keeps one of each.
- Time stamps are their ISO text, which is ASCII; a malformed one, which makes `from_dict` fail, is not modelled.
- Text that is not valid where SQLite or UTF-8 encoding needs it, database files, permissions and transactions: the table is a map.
- The CommonMark modules work on Unicode scalar values; `urlsplit(..).scheme` is a parameter that is assumed to return, with the empty scheme for `unsafe-link`.
- `plain_text_from_commonmark` and the capability matrix: they rest on the MarkdownIt parser, which is not part of this model.
- Git, the file system walk and path resolution are parameters of the manifest; lengths are below 2^64.
- Tool names are assumed distinct and limits non-negative; `_tokenize`, `_score_tool` and the patterns on the user's message are parameters of a turn, scores are whole numbers, the router's prompt is left out, and so is the reason text of a selection, which its method determines.
- Home-directory expansion is a parameter; how the allowed paths are gathered from tool outputs (`image_paths_from_tool_outcome`) is left out because it rests on code for media results.
- The watchdog's readings are a sequence; signals and the end of the child are the end of that sequence.
- Ratchet targets, file patterns and messages; the order of matrix rows by percentage.
- Gate arguments, labels and steps of a bundle are opaque, `int()` of the environment text a parameter; a bundle's dictionary form is left out.
- The policy engine, capabilities, delegation, sessions, approval queue and programmatic evaluator are not part of this model.
