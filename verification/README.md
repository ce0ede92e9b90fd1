# Verification of the mineral engine

A mineral is a person's own machine: a state folder, a git repository holding its brain, and a
set of small scripts that back it up, restore it, move it, seed it and guard it. This project
models the scripts on which losing or keeping that state depends, and proves what they promise.
`dafny verify dfyconfig.toml` checks everything.

| module | models |
|---|---|
| `FileTree`, `Listing`, `PathText`, `PathOrder` | directory trees seen through lstat and readdir, sorted listings, paths as text and in walking order |
| `Backup`, `Restore`, `RoundTrip` | the archive's member list, laying a snapshot over a mineral, and the two together |
| `Nightly` | the nightly run as a state machine in which any step may throw and the process may be killed anywhere |
| `GitRestore`, `LinkPaths`, `OpenSnapshot`, `RestoreRun` | the restored git tree and its history, where a link leads, the checks that open a snapshot, and a whole restore from listing to disk |
| `MovePack`, `MoveTrip`, `OpenPack` | what travels beside the brain: packing, reading, writing, packing again, and a move from end to end |
| `Base64`, `OpenSsh` | the OpenSSH private key container: written, armoured, and read back |
| `ImapFramer` | the incremental command framer with literals |
| `PageLint` | position-preserving blanking and the comment lexer |
| `BrainClaudeMd` | the marker-guarded block spliced into arbitrary text |
| `TokenRefresh` | single-use refresh tokens spent against an adversarial server |
| `SeedPages`, `ChatRetention`, `Grants` | three small state machines over unbounded runs |
| `Bytes`, `Text` | words, UTF-8, substring search and trimming |

A tree is a finite map from a path to a directory, file, link or special node, and every walk is
proved against a path-by-path specification of what it leaves at each path. Code that changes
state in place is a class or a method with loops (`Restore.Disk`, `Backup.Collector`,
`Nightly.Brain`, `RestoreRun.Mineral`, `MovePack.Target`, `ImapFramer.Connection`,
`BrainClaudeMd.Folder`, `TokenRefresh.Mineral`, `SeedPages.Box`, `ChatRetention.Chats`,
`Grants.Box`), proved equal to a function of its inputs and old state; the promises are then lemmas
about those functions, over every input and every sequence of runs.

## What turned out not to hold

- Key generation does not succeed for every comment shorter than 2^32 bytes: the private section
  carries a length of its own, so it succeeds exactly when the comment has at most 2^32 - 139 bytes
  (`OpenSsh.GenerateDeployKeypair`). A JavaScript string is never that long, so no comment the
  wizard can hold meets the limit; it is the format's, not a defect.
- Saving a refresh token is not atomic: the store is truncated before it is written. A kill loses the
  live token exactly between a rotating exchange and the end of its save, or inside any save
  (`TokenRefresh.KillWindow`), and then for good (`TokenRefresh.LostForGood`), although
  `engine/gh-token-refresh.mjs:15-17` says the store is written before the old token is discarded.
- After a failed access-token store, the log line of `engine/gh-token-refresh.mjs:105-106` and the
  comment above it say the next run retries. The saved expiry is already the new one, so an
  unforced hourly run reports the token fresh instead (`TokenRefresh.TheNextHourDoesNotRetry`);
  `TokenRefresh.RetryAfterFailedStore` says exactly when a run does retry.
- A link in a snapshot may lead outside the mineral after all (`engine/restore.mjs:162` says never):
  an absolute target is compared as text and not resolved. It passes and leads outside exactly when
  it begins with the state directory and a slash and climbs out again; a link that leads inside is
  refused exactly when it is absolute and does not begin with the state directory
  (`LinkPaths.LinkTest`, `LinkPaths.PassesOutside`, `LinkPaths.RefusedInside`). Relative links, and
  absolute ones in normal form, are decided as promised (`LinkPaths.StraightLink`).
- Not every backup can be restored: one archived link that does not pass and the restore refuses the
  whole snapshot, though the nightly verify lets it through (`engine/backup.mjs:201`).
  `OpenSnapshot.BackupOpens` says exactly which backups open, `OpenSnapshot.OneLinkDecides` gives
  some of each kind.
- An accepted listing may hold a line that lands on the door (`engine/restore.mjs:98-100` says none
  may): only one leading "./" is dropped before the first segment is looked at, so "././devices/x"
  is let by, and exactly such lines are (`OpenSnapshot.AcceptedOnDoor`,
  `OpenSnapshot.DoorLineAccepted`). What keeps the door is that laying a snapshot skips its names
  (`Restore.DoorUntouched`).
- A block is not well-formed whatever the brain root is called: it is exactly when the root's name
  holds no marker (`BrainClaudeMd.BuildsASection`, `BrainClaudeMd.MarkedRoot`).
- Once a night was adopted, a later night that is not may commit a snapshot of any size
  (`Nightly.AdoptedThenCommitted`): a commit is within the cap exactly when what lies in
  backups/crads/ as it is made is (`Nightly.EveryCommit`). On a brain never adopted every one is
  (`Nightly.PebbleFitsGitHub`).
- Merging trees is idempotent but not associative (`Restore.OverlayNotAssociative`).
- A deleted page comes back in the list, without its file, exactly when the manifest is missing
  (`SeedPages.TombstonedListing`, `SeedPages.MissingManifestRelists`).
- The list of who can open a mineral names its holder twice exactly when the holder claimed it
  with a live grant of their own still standing (`Grants.ListedTwice`, `Grants.ClaimedWhileGranted`).
- A path a mineral keeps can be dropped by the old mineral's folder link, and only then or by the
  never-commit list (`GitRestore.KeptPathsStay`, `GitRestore.DropSparesTheDoor`,
  `GitRestore.DoorCanBeDropped`).
- The listing checks that `openPack` adds after `readPack` refuse nothing but an empty pack
  (`OpenPack.SafeEntryAccepted`, `OpenPack.PackListing`).

## Model

| member | source | states |
|---|---|---|
| Restore.Disk.OpenDirectory | engine/restore.mjs:207-210 | makes a path a directory its owner can write: a file or link there goes, a directory there keeps everything below it, nothing else changes |
| Restore.Disk.MergeInto | engine/restore.mjs:204-218 | the recursive in-place merge leaves exactly the path-wise overlay of the source over the destination |
| Restore.OverlayIdempotent | engine/restore.mjs:189-218 | merging the same tree again changes nothing |
| Restore.OverlayNotAssociative | engine/restore.mjs:204-218 | a directory over a file over a directory: merging in sequence and merging the last two first differ |
| Restore.OverlayWellFormed | engine/restore.mjs:204-218 | an overlay is again a tree: everything in it lies in a directory |
| Restore.Disk.Tighten | engine/restore.mjs:237-241 | the chmod walk drops group and other bits at and below a path, touches no link and nothing elsewhere |
| Restore.AllowedTops | engine/restore.mjs:229-230 | the sorted top-level names, each once, without those no snapshot may write |
| Restore.Disk.LayTops | engine/restore.mjs:228-242 | the loop over top-level names gives the whole applied snapshot and returns exactly the names it restored, in order |
| Restore.Disk.ApplySnapshot | engine/restore.mjs:221-244 | with --without-telegram the old bot's files stay behind, unless one is a directory, where it fails with the mineral untouched; otherwise the mineral is the applied snapshot |
| Restore.DoorUntouched | engine/restore.mjs:42-48 | whatever a snapshot holds, nothing under the door's names and not the mineral's root changes |
| Restore.AppliedIdempotent | engine/restore.mjs:221-244 | applying the same snapshot to the restored mineral changes nothing |
| Restore.WhatIsLaid | engine/restore.mjs:233-241 | what the snapshot holds is there afterwards: a file with its bytes, a link with its target, and of the mode the owner's three bits and no other |
| Restore.AppliedAt | engine/restore.mjs:221-244 | the whole of it, path by path: the door stays; the snapshot's entries are laid with owner bits; the mineral's own stay exactly where no file or link of the snapshot lies above them, and under a restored name lose group and other bits |
| Restore.LeftBehindAt | engine/restore.mjs:222-227 | --without-telegram leaves exactly the old bot's two files behind, and a dangling link of that name not |
| Restore.NothingElse | engine/restore.mjs:221-244 | a path of the restored mineral is the snapshot's or was the mineral's own |
| Listing.Sorted | engine/backup.mjs:129 | a sorted directory listing holds every name once, in order |
| Listing.AscendingUnique | engine/backup.mjs:129 | and there is only one such list |
| Backup.Collector.Walk | engine/backup.mjs:128-138 | below a directory the walk archives, leaves out and counts exactly three sets of paths, each member once and after its parent |
| Backup.Collector.Visit | engine/backup.mjs:130-136 | one name of a listing contributes exactly its own part of the three sets |
| Backup.Collect | engine/backup.mjs:122-141 | the member list is exactly the targets and what their walks archive, without repeats when no target lies under another; with it come exactly what was left out and how many files git holds |
| Backup.MembersUnder | engine/backup.mjs:139 | a member is a target's member, at or below it |
| Backup.MembersAre | engine/backup.mjs:122-141 | the members are the targets and, below one of them, every folder, file and link that the policy spares and git has not |
| Backup.OneTargetMember | engine/backup.mjs:126-136 | for a path below one target, spelled out: a folder, or a file or link git does not track; no excluded path at or above it; no excluded name and no .jsonl name under a path whose chats are left out, from the target down |
| Backup.ArchivedIs | engine/backup.mjs:128-138 | below a folder exactly these are archived, and those of them that git has are counted |
| Backup.AllHeldIs | engine/backup.mjs:135 | where no target lies under another, the count is of all files and links below a target that are spared and tracked |
| Backup.LeftOutIs | engine/backup.mjs:131 | left out are exactly the paths at whose last name the walk stops first |
| Backup.LeftOutUnder | engine/backup.mjs:139-140 | and what is left out altogether is left out below some target |
| RoundTrip.SnapshotRestorable | engine/restore.mjs:158-159 | the unpacked archive, with the ancestors tar makes up, is a tree a restore can lay, clear of the door |
| RoundTrip.MemberOrExcused | engine/backup.mjs:117-121 | below a target every folder, and every file and link git has not, is a member unless the policy leaves it out; below one target only, exactly these |
| RoundTrip.OldStateComesBack | engine/backup.mjs:122-141 | back up any state and apply it over any mineral: whatever under a target the policy spares and git has not is back, with its bytes or target and its owner bits |
| RoundTrip.NewStateStays | engine/restore.mjs:233-241 | what the new mineral had and the archive does not hold is gone exactly when the archive puts a file or link above it; otherwise it keeps its bytes, and of its mode the owner bits or, outside the restored names, all |
| RoundTrip.ExcusedPathsAreTheMinerals | engine/backup.mjs:117-121 | a path the archive left out is, after a restore, whatever the new mineral had there |
| Nightly.UnderTheHardCap | engine/backup.mjs:74-77 | for any policy and environment value, NaN and infinities included, a snapshot not over the cap encrypts to at most 90,000,000 bytes |
| Nightly.NightIs | engine/backup.mjs:74-77 | by a night's own fields: it is over the cap exactly when archive and 64 bytes pass 90,000,000 or a cap that was given; it may commit exactly when it is not, is not adopted and not moving in; and where its snapshot goes |
| Nightly.CipherSizeIs | engine/backup.mjs:76-77 | encrypting adds more than sixteen bytes and at most 32, to whole blocks |
| Nightly.NightSound | engine/backup.mjs:143-268 | whatever step throws, every moment of a night keeps the invariant, loses no snapshot and no commit |
| Nightly.EveryMomentIsSafe | engine/backup.mjs:153-236 | in every state of every sequence of nights, killed anywhere: blobs in backups/ itself within the cap, final ones verified, and every commit by a night that is not adopted, not moving in and within 90,000,000 bytes and every cap given, with a verified snapshot within the cap in backups/ and nothing half-made there |
| Nightly.AfterIsSafe | engine/backup.mjs:143-268 | the invariant holds after any sequence of nights, each killed anywhere |
| Nightly.NeverAbsentAgain | engine/backup.mjs:161-168 | once a snapshot is in place it is never absent again at any moment of any later night, and no commit is lost |
| Nightly.EveryCommit | engine/backup.mjs:219-228 | at every moment of every sequence of nights a commit holds only snapshots within the cap, and nothing half-made, exactly when what lies in backups/crads/ at that moment is within the cap and not half-made |
| Nightly.PebbleFitsGitHub | engine/backup.mjs:51-53 | on a brain never adopted nothing under backups/, staged or final, is ever over the cap, and nothing any commit holds is either |
| Nightly.AdoptedThenCommitted | engine/backup.mjs:219-228 | that is needed: one adopted night and then one that is not, and a commit holds a snapshot of any size |
| Nightly.SuccessfulNight | engine/backup.mjs:206-236 | a night without a fault ends with its snapshot in its place by adoption and cap, a superseded local one gone, and one commit of what lies there exactly when it may commit and git works |
| Nightly.DropFault | engine/backup.mjs:206-213 | a night whose removal of the local copy it supersedes fails keeps both snapshots, and commits nothing |
| Nightly.StatFault | engine/backup.mjs:206-217 | one that fails right behind it has put its snapshot in place and the local copy away, and commits nothing |
| Nightly.HeartbeatFault | engine/backup.mjs:219-236 | one that fails at the heartbeat has committed exactly as a night without a fault |
| Nightly.FailedNight | engine/backup.mjs:258-262 | a night that fails before its rename leaves every final snapshot and the history as they were, and nothing staged |
| Nightly.Brain.Nightly | engine/backup.mjs:143-268 | the script, killed after any number of effects, leaves exactly the state the moments say |
| GitRestore.RestoredCommit | engine/restore.mjs:253-283 | the composed tree, path by path: nothing for never-commit paths and the old link, this mineral's version for kept paths, the target's otherwise; parents are both histories |
| GitRestore.RestoredPathByPath | engine/restore.mjs:253-283 | the restored tree, path by path: never-commit paths and the old mineral's link are absent, what this mineral keeps is its own version or absent, every other path is there exactly when the old tree has it, with the old blob |
| GitRestore.KeptPathsStay | engine/restore.mjs:76-77 | a kept path is this mineral's own exactly when neither the never-commit list nor the dropped link reaches it |
| GitRestore.DropSparesTheDoor | engine/restore.mjs:259-265 | the dropped link is no kept path unless the old tree has a link where a mineral keeps its door |
| GitRestore.DoorCanBeDropped | engine/restore.mjs:262-276 | an old open-folder that reads "devices", with a link of that name, takes this mineral's roster out of the restored tree |
| GitRestore.RestoringAgain | engine/restore.mjs:253-283 | restoring the same target onto the result gives the same tree |
| OpenSnapshot.CheckEntries | engine/restore.mjs:103-116 | accepts a listing exactly when some line is a path and, one leading "./" dropped, no line is absolute, holds ".." or has a door's name as its first segment; returns the first segments, sorted |
| OpenSnapshot.AcceptedOnDoor | engine/restore.mjs:98-111 | an accepted line is unpacked onto the door exactly when a dot that the dropped "./" has left stands ahead of a door's name |
| OpenSnapshot.DoorLineAccepted | engine/restore.mjs:98-111 | and for every name on the door there is such a line, in a listing that is accepted |
| OpenSnapshot.QuotedName | engine/restore.mjs:154-156 | however tar escapes a name in its listing, that neither hides nor fakes a name on the door, a dot or a drive |
| OpenSnapshot.PathAccepted | engine/restore.mjs:103-116 | a line of ordinary names clear of the door is accepted for the name it lies under |
| OpenSnapshot.FolderAccepted | engine/restore.mjs:109 | so is a folder's line, with its slash |
| OpenSnapshot.MemberAccepted | engine/restore.mjs:103-116 | a member's escaped line is accepted for the name it lies under |
| OpenSnapshot.BackupListingAccepted | engine/restore.mjs:156 | the listing of every backup passes the restore's checks, whatever its names hold, line breaks included |
| LinkPaths.RelativeLink | engine/restore.mjs:165-168 | a relative link passes the test exactly when it leads to the state directory or below it |
| LinkPaths.LinkTest | engine/restore.mjs:162-168 | a link that passes leads outside exactly when it is absolute, begins with the state directory and climbs out of it again; one that leads inside is refused exactly when it is absolute and does not begin with it |
| LinkPaths.NoClimbing | engine/restore.mjs:162-168 | so a relative link, or an absolute one without "..", leads inside when it passes |
| LinkPaths.StraightLink | engine/restore.mjs:162-168 | and for relative links and absolute ones in normal form the test is the promise |
| LinkPaths.PassesOutside | engine/restore.mjs:167-168 | for every state directory, a link to it with "/.." behind passes and leads outside |
| LinkPaths.RefusedInside | engine/restore.mjs:167-168 | and a link to it with a second slash in front leads to it and is refused |
| OpenSnapshot.WalkLinks | engine/restore.mjs:163-169 | the walk below a folder fails exactly when some link below it does not pass the test |
| OpenSnapshot.CheckLinks | engine/restore.mjs:162-169 | lets the unpacked snapshot by exactly when each of its links leads inside, and not by a roundabout absolute text, or is absolute, begins with the state directory and climbs out |
| LinkPaths.InsideIsBelow | engine/restore.mjs:168 | comparing absolute paths in normal form as texts, with a separator, is comparing them name by name |
| OpenSnapshot.OpenSealed | engine/restore.mjs:146-171 | a snapshot opens exactly when the passphrase does, its listing is accepted and each of its links leads inside, not by a roundabout text, or climbs out behind the state directory's own name |
| OpenSnapshot.BackupOpens | engine/restore.mjs:146-171 | which backups open, by where the links they archived lead: one that opens holds a link that leads outside exactly when it holds one that climbs out; with every target relative or in normal form a backup opens exactly when no link leads outside |
| OpenSnapshot.OneLinkDecides | engine/restore.mjs:162-168 | there are backups refused for a link that leads outside, backups that open with one, and backups refused though every link leads inside |
| RestoreRun.PassphraseIsKept | engine/restore.mjs:414-424 | afterwards the passphrase on file is the one that opened the snapshot, marked as held |
| RestoreRun.KeptElsewhere | engine/restore.mjs:418-423 | recording it changes nothing else |
| RestoreRun.BackupRestores | engine/restore.mjs:375-438 | from a dead mineral to a new one: a backup with a link that does not pass changes nothing; any other brings back everything under its targets, unless tracked, excluded or written by the last steps |
| RestoreRun.BackupRefused | engine/restore.mjs:375-438 | and which are refused, by where their links lead: with every target relative or in normal form, exactly those with a link that leads outside |
| RestoreRun.EndsIs | engine/restore.mjs:319-438 | how a restore ends, by what it was asked and what lies in its way: stopped, a dry run, done, and failed otherwise |
| RestoreRun.RecordedIs | engine/restore.mjs:414-424 | the passphrase is recorded exactly when nothing is in the way, and what the two files and a new folder then are |
| RestoreRun.NamedIs | engine/restore.mjs:429-437 | the name is kept exactly when the files can be read and written, and it is the one asked for or the one on file |
| RestoreRun.KeepsName | engine/restore.mjs:429-438 | in the end both files carry the name asked for, or else the one box-name held, whatever profile the snapshot laid |
| RestoreRun.NamedElsewhere | engine/restore.mjs:429-437 | keeping the name changes nothing but the two files that hold it |
| RestoreRun.RenamedFiles | engine/box/name-set.mjs:16-27 | one name in two files: box-name holds the clean name, the profile is edited to it, and each keeps the mode it had |
| RestoreRun.Mineral.Open | engine/restore.mjs:378-385 | a sealed snapshot or a pack is opened and checked with nothing touched |
| RestoreRun.Mineral.LayDown | engine/restore.mjs:411-424 | the unpacked snapshot is applied, then the passphrase recorded |
| RestoreRun.Mineral.KeepPassphrase | engine/restore.mjs:417-424 | the two files, step by step, as far as it gets |
| RestoreRun.Mineral.Run | engine/restore.mjs:319-438 | how every restore ends and what the disk and the head are then: a source that does not open, and a dry run, leaves both as they were; otherwise the brain is the composed commit, the head reaches both histories, and the last commit holds what the name step left |
| RestoreRun.Mineral.RestoreBrain | engine/restore.mjs:403-407 | pending work is committed first; the new head reaches both histories, so moving on to it is a fast-forward, and holds the composed tree |
| RestoreRun.Mineral.KeepName | engine/restore.mjs:429-438 | the name step and its commit |
| RestoreRun.Mineral.SetName | engine/box/name-set.mjs:16-27 | both places where the name is kept, as far as the script gets |
| PathText.SplitJoin | engine/move-pack.mjs:58 | joining names with slashes and splitting gives the names back |
| PathOrder.OrderedUnique | engine/move-pack.mjs:68 | a set of paths has one list in the order of a walk over sorted listings |
| MovePack.SafeRelIsSafe | engine/move-pack.mjs:54-61 | what safeRel accepts is relative, inside, ordinary names only and never on the never list |
| MovePack.SafeRelJoin | engine/move-pack.mjs:48-61 | a path written out is accepted exactly when it is safe, and reads as itself |
| MovePack.NeverIs | engine/move-pack.mjs:40-52 | the paths that never travel: those under eight names at the top and under three in .kernel, and no other |
| MovePack.WalkFiles | engine/move-pack.mjs:63-72 | lists each safe regular file at or below a path once, in the order of sorted listings, following no link |
| MovePack.Find | engine/move-pack.mjs:79-80 | what each safe request finds, request after request, in walking order |
| MovePack.PackFound | engine/move-pack.mjs:81-91 | packs each found file once, or refuses exactly when they weigh more than 20 MiB together |
| MovePack.PackPaths | engine/move-pack.mjs:78-98 | the pack is exactly the wanted files, each where it is first found, and behind them the added entries; none when the files are over the limit or an added entry is not safe |
| MovePack.PackIs | engine/move-pack.mjs:78-98 | a pack is made exactly when the files weigh at most 20,971,520 bytes and the added entries are safe, and lists the files first, then the entries |
| MovePack.AddedRead | engine/move-pack.mjs:92-96 | an added entry is read back at the path it was asked for, with its own data, however that path was written |
| MovePack.ReadPack | engine/move-pack.mjs:101-112 | accepts exactly the packs whose every path is safe, and reads each entry |
| MovePack.ReadPacked | engine/move-pack.mjs:87-90 | a packed file is read back with the same path and bytes |
| MovePack.Target.MakeParents | engine/move-pack.mjs:133 | makes the missing folders above a path, private, and stops exactly at something that is no folder |
| MovePack.Target.WriteItem | engine/move-pack.mjs:130-136 | writes one file with owner bits, changing nothing but it and its missing folders; fails exactly when something is in the way |
| MovePack.ModeKept | engine/move-pack.mjs:134-135 | of a file's mode the owner's bits are left, and reading and writing where there were none |
| MovePack.Target.WritePack | engine/move-pack.mjs:124-139 | into any folder, the entries one after the other, a later one replacing an earlier; fails exactly when one of them cannot be written |
| MovePack.WrittenFolder | engine/move-pack.mjs:124-139 | into an empty folder: entries can be written exactly when no path lies above another, and then the folder holds the last entry of each path and nothing else |
| MoveTrip.PackIsRead | engine/move-pack.mjs:101-112 | everything packed is read at its own path with its own bytes, and nothing collides |
| MoveTrip.PackRebuilds | engine/move-pack.mjs:48-138 | a pack that was made is read and written without fail, and the folder holds exactly its files with identical bytes and owner bits, no link, nothing never carried |
| MoveTrip.RebuiltFolder | engine/move-pack.mjs:48-138 | the rebuilt folder is one that can be packed |
| MoveTrip.FilesAgain | engine/move-pack.mjs:63-80 | under each request it has exactly the files that were not skipped |
| MoveTrip.ContentsAgain | engine/move-pack.mjs:78-98 | it is packed file by file in the same order |
| MoveTrip.PacksAlike | engine/move-pack.mjs:48-138 | packing the rebuilt folder gives the same pack, entry by entry in the same order, modes masked, however requests overlap |
| MoveTrip.Travel | engine/move-pack.mjs:78-139 | the whole trip with nothing supposed: pack, read, write, pack again |
| MoveTrip.Unpack | engine/move-pack.mjs:101-139 | read, then written into an empty folder |
| OpenPack.SafeEntryAccepted | engine/restore.mjs:173-178 | an entry that readPack accepts is accepted by checkEntries, backslashes, dots and trailing slashes included |
| OpenPack.PackListing | engine/restore.mjs:181-182 | so a readable pack is refused by the second checks only when it is empty |
| OpenPack.OpensTo | engine/restore.mjs:179-187 | a pack opens exactly when it is readable, lists something and no entry lies under another; then it unpacks to its entries and nothing else |
| OpenPack.Open | engine/restore.mjs:179-187 | openPack opens exactly those packs, to exactly that folder |
| OpenPack.PackOpens | engine/restore.mjs:173-187 | every pack that could be made of anything at all opens, and rebuilds what was wanted |
| OpenPack.LaidArrives | engine/restore.mjs:221-244 | laid over a mineral, every entry that no later one replaces is there with identical bytes and owner bits, and nothing came that was not packed |
| OpenPack.FoundApart | engine/move-pack.mjs:78-98 | nothing collides among the files found, so without added entries a pack can always be written |
| OpenPack.Move | wizard/panel/brain-move.mjs:288-305 | a whole move with nothing supposed: it happens exactly when the found files are within the limit, the added entries are safe, there is something to carry and no path of it lies above another; then every wanted file and every added entry has arrived, added ones replacing found ones |
| Base64.DecodeEncode | wizard/engine.mjs:42 | base 64 written is read back, for every byte string |
| Base64.EncodedLength | wizard/engine.mjs:77 | four characters for every three bytes begun |
| Base64.DigitsRead | wizard/engine.mjs:42 | the digits that are read are those that are written, and the two of the other alphabet |
| Base64.EncodeAlphabet | wizard/engine.mjs:77-80 | what is written holds no blank and no dash |
| OpenSsh.TakeBack | wizard/engine.mjs:26-30 | a length-prefixed string is read back and what follows it is left |
| OpenSsh.PublicBlobOfContainer | wizard/engine.mjs:43-49 | past magic, three strings and a key count stands the public blob that was written |
| OpenSsh.ArmourOff | wizard/engine.mjs:77-80 | armour and 70-column lines come off again |
| OpenSsh.DeriveFromArmour | wizard/engine.mjs:38-54 | for every key, whatever the private section and comment, the public line comes back |
| OpenSsh.Rd | wizard/engine.mjs:46 | the reader closure takes one string at the cursor and moves on, or throws |
| OpenSsh.DerivePublicKey | wizard/engine.mjs:38-54 | the cursor parser computes the structural parse, null wherever it fails |
| OpenSsh.ReadPublicBlob | wizard/engine.mjs:43-49 | the cursor loop reads the public blob or fails as the parse does |
| OpenSsh.Padded | wizard/engine.mjs:68-71 | fewer than eight bytes 1, 2, 3, ... up to a multiple of eight |
| OpenSsh.GenerateDeployKeypair | wizard/engine.mjs:56-82 | succeeds exactly for comments of at most 2^32 - 139 bytes; read back string by string the private text holds no cipher, one key, its public blob, the check twice, the seed with the public key behind it, the comment and the padding, and nothing else; the public line holds the same key and can be derived from it |
| OpenSsh.WrapsAt70 | wizard/engine.mjs:77 | every line of the armoured text is seventy characters but the last |
| OpenSsh.Recoverable | wizard/engine.mjs:33-37 | a lost public line can be recovered from any private text of ours, under any comment |
| BrainClaudeMd.NoStraddle | engine/box/brain-claude-md.mjs:44-48 | whatever stands around a block, no marker occurrence straddles its edges |
| BrainClaudeMd.UpsertReplaces | engine/box/brain-claude-md.mjs:138-148 | a block among marker-free text is replaced where it stands |
| BrainClaudeMd.UpsertOnce | engine/box/brain-claude-md.mjs:131-148 | the result holds exactly one start and one end marker, the section between them, and around it what stood around it |
| BrainClaudeMd.UpsertAbsorbs | engine/box/brain-claude-md.mjs:131-148 | for every text, writing one section and then another is writing the other alone |
| BrainClaudeMd.RefusedIff | engine/box/brain-claude-md.mjs:131-146 | a text is refused, and returned unchanged, exactly when its markers are broken, doubled or out of order |
| BrainClaudeMd.OutsideIsKept | engine/box/brain-claude-md.mjs:141-147 | where a block stands the text outside it is kept byte for byte; where none does, appending trims only the end |
| BrainClaudeMd.SurroundingsHoldNoMarker | engine/box/brain-claude-md.mjs:138-148 | what is kept around the block holds no marker |
| BrainClaudeMd.BuildsASection | engine/box/brain-claude-md.mjs:86-127 | the block that is built is well-formed exactly when the brain root's own name holds no marker |
| BrainClaudeMd.BlockReads | engine/box/brain-claude-md.mjs:86-127 | the block opens with its marker and note, holds the prose filled with the brain root's name and one slash, and closes with its marker |
| BrainClaudeMd.MarkedRoot | engine/box/brain-claude-md.mjs:86-127 | and a root that is named like a marker gives a block that is not |
| BrainClaudeMd.Folder.Ensure | engine/box/brain-claude-md.mjs:154-172 | writes only a regular or missing CLAUDE.md, and only when the bytes change; reports which |
| BrainClaudeMd.EnsuredIs | engine/box/brain-claude-md.mjs:154-172 | what one start leaves and reports: a missing file gets the block alone, a block is replaced, a text without one gets it at its end, and a link, anything that is no file, broken markers and a brain elsewhere are left alone |
| BrainClaudeMd.EnsureSettles | engine/box/brain-claude-md.mjs:44-49 | after one start the next writes nothing, and a reworded block leaves what it alone would have left |
| PageLint.BlankSpans | engine/appshell/page-lint.mjs:41-45 | blanks exactly the covered characters but newlines, spans overlapping and in any order |
| PageLint.KeepSpans | engine/appshell/page-lint.mjs:48-52 | keeps exactly the covered characters and every newline |
| PageLint.SpanPassesAre | engine/appshell/page-lint.mjs:41-52 | inside a span one pass blanks exactly what the other keeps; newlines stay in both |
| PageLint.FindComments | engine/appshell/page-lint.mjs:29-38 | the loop over lastIndex finds the leftmost shortest comments |
| PageLint.FirstComment | engine/appshell/page-lint.mjs:29-38 | the first comment runs from the first opener to the first closer after it |
| PageLint.NoCommentLeft | engine/appshell/page-lint.mjs:59 | an opener no comment swallowed has no closer after it |
| PageLint.StripCommentsOnce | engine/appshell/page-lint.mjs:59 | a stripped text holds no comment, and stripping it again changes nothing |
| PageLint.StripsNone | engine/appshell/page-lint.mjs:59 | a text with no closer after an opener is stripped of nothing |
| PageLint.SkipString | engine/appshell/page-lint.mjs:109-117 | the string loop blanks nothing and ends where the lexer reads code again |
| PageLint.LineEnd | engine/appshell/page-lint.mjs:118-121 | a line comment runs to its newline |
| PageLint.BlockEnd | engine/appshell/page-lint.mjs:125-130 | a block comment runs to its closer, or to the end |
| PageLint.StripJsComments | engine/appshell/page-lint.mjs:103-135 | the span-collecting walk blanks exactly the characters the lexer automaton has in a comment |
| PageLint.JsStripOnce | engine/appshell/page-lint.mjs:96-102 | string contents are never altered, and stripping twice is stripping once |
| PageLint.StripsPieces | engine/appshell/page-lint.mjs:96-135 | a script written as code, strings with their escapes, and comments comes out with the comments blank, line breaks kept, and all else as it was |
| PageLint.ScannedTextsKeepPositions | engine/appshell/page-lint.mjs:22-26 | every scanned text has the raw page's length and newlines, each character its own or a space |
| PageLint.LineIs | engine/appshell/page-lint.mjs:208 | a position is on the line after as many as there are line breaks before it |
| PageLint.MaskedLine | engine/appshell/page-lint.mjs:208 | so a position has the same line number in both |
| PageLint.SortByLineSorts | engine/appshell/page-lint.mjs:224 | the report is the same violations, by line |
| PageLint.SortKeepsOrder | engine/appshell/page-lint.mjs:224 | and on each line in the order they were found |
| PageLint.LintPage | engine/appshell/page-lint.mjs:205-226 | what is reported is exactly the hits of the three kinds of rules, each on the text it scans, each on its line of the raw page, sorted and in order; ok exactly when there is none |
| PageLint.LintIgnoresComments | engine/appshell/page-lint.mjs:54-59 | a page and its comment-stripped form get the same violations |
| PageLint.LintSeesNoComment | engine/appshell/page-lint.mjs:54-59 | two pages that differ only inside comments get the same violations |
| ImapFramer.NumberOfDecimal | tests/fake-imap.mjs:143 | a printed number is read back |
| ImapFramer.MarkOfPrinted | tests/fake-imap.mjs:135 | a printed literal mark is found at the end of any line, with its number |
| ImapFramer.MarkIs | tests/fake-imap.mjs:135 | which lines end in a literal mark, where it begins and the number it holds |
| ImapFramer.LineCut | tests/fake-imap.mjs:136-140 | the first line of a command is cut at its first blank into tag and rest; a later one is put behind what is there |
| ImapFramer.StepProgress | tests/fake-imap.mjs:127-148 | every turn of the unbounded loop makes progress, empty literals included, so it ends |
| ImapFramer.StepMore | tests/fake-imap.mjs:127-148 | a turn that can be taken is taken alike when more bytes are there |
| ImapFramer.DrainMore | tests/fake-imap.mjs:127-148 | running dry and then getting more is having had it all |
| ImapFramer.TwoChunks | tests/fake-imap.mjs:125-149 | two chunks are one: same leftover state, same events |
| ImapFramer.ChunkingIsInvisible | tests/fake-imap.mjs:125-149 | any split of a byte stream, inside CRLF, a character or a literal or not, gives the same commands, literals and state |
| Bytes.ReadUtf8Back | tests/fake-imap.mjs:134 | text written as UTF-8 is read back, every character of it |
| Bytes.Utf8Form | tests/fake-imap.mjs:133-134 | a character is one to four bytes by its code, the first of which says how many |
| ImapFramer.Utf8Decodes | tests/fake-imap.mjs:134 | so there is a decoding that undoes encoding, which is all that is asked of one |
| ImapFramer.OneLineBytes | tests/fake-imap.mjs:133 | a text of one line is encoded without the bytes of a line break |
| ImapFramer.ReadPieces | tests/fake-imap.mjs:133-147 | the printed rest of a command is read as its literals and its line |
| ImapFramer.ReadAll | tests/fake-imap.mjs:125-149 | over bytes, lines in UTF-8 and literals as they are: the framer undoes the printer of commands, nothing left over |
| ImapFramer.Connection.Turn | tests/fake-imap.mjs:127-148 | the loop body is one step |
| ImapFramer.Connection.Data | tests/fake-imap.mjs:125-149 | the data handler appends a chunk and takes every step there is |
| TokenRefresh.RunKeepsLive | engine/gh-token-refresh.mjs:51-111 | a run sends only the live token, and ends with the live token in a readable store unless a rotation's answer is lost: exactly that |
| TokenRefresh.OutcomeIs | engine/gh-token-refresh.mjs:55-111 | what a run answers, by its store, its time and what becomes of its request |
| TokenRefresh.RunLeaves | engine/gh-token-refresh.mjs:38-111 | and what it leaves: the granted token and both times where one was granted, and otherwise its store as it was; GitHub spends the live token when it hands out the next |
| TokenRefresh.KillWindow | engine/gh-token-refresh.mjs:38-99 | a kill loses the live token exactly between a rotating exchange and the end of its save, or inside any save, rotating or not |
| TokenRefresh.CutOnce | engine/gh-token-refresh.mjs:38-111 | a run can be killed at each of its moments, and one that is not ends at its last |
| TokenRefresh.LostForGood | engine/gh-token-refresh.mjs:57-60 | once lost it is lost at every moment of every later run, and no such run spends anything |
| TokenRefresh.KeptThroughKills | engine/gh-token-refresh.mjs:38-111 | over every sequence of runs, each killed anywhere, the live token is still stored exactly when no run ended inside the window |
| TokenRefresh.NeverSpendsASpentToken | engine/gh-token-refresh.mjs:38-111 | over every sequence of runs in which no rotation's answer is lost, no spent token is sent and the live one stays stored |
| TokenRefresh.TheWayBackStays | engine/gh-token-refresh.mjs:82-83 | no run ever deletes the stored token |
| TokenRefresh.RetryAfterFailedStore | engine/gh-token-refresh.mjs:101-108 | after a failed store a run retries exactly when forced or inside the early window, and then can succeed |
| TokenRefresh.TheNextHourDoesNotRetry | engine/gh-token-refresh.mjs:65-67 | an hour after a failed store the run reports the token fresh |
| TokenRefresh.OneRunInTime | engine/gh-token-refresh.mjs:61-67 | a punctual run finds the token expired for less than max(0, G - E), G the gap between runs and E the early window, is not told its refresh token has expired, and leaves one good past its window |
| TokenRefresh.ExpiredOnlyBriefly | engine/gh-token-refresh.mjs:32 | over unboundedly many renewals at most G apart, with refresh tokens granted to last as long, a token is expired for less than max(0, G - E) before a run comes |
| TokenRefresh.Mineral.SaveGrant | engine/gh-token-refresh.mjs:38-49 | killed inside the save it leaves a store that cannot be read |
| TokenRefresh.Mineral.RefreshIfNeeded | engine/gh-token-refresh.mjs:51-111 | the script, killed after any number of effects, leaves exactly that moment of the run, and answers as the run does when it lasts |
| SeedPages.SeedingKeeps | engine/appshell/seed-pages.mjs:12-16 | seeding changes no page that is there, keeps the member's rows first and in order, lists only pages created now |
| SeedPages.SeededPage | engine/appshell/seed-pages.mjs:58-59 | a page is there after a seeding exactly when it was, or the template ships it and the member has not deleted it; with the member's text, or else the template's |
| SeedPages.SeededRest | engine/appshell/seed-pages.mjs:42-155 | behind the member's rows stand the template's rows of pages made now, in order and marked; a missing manifest is the template's; all else of the member's stays |
| SeedPages.CreatedIs | engine/appshell/seed-pages.mjs:42-46 | the number reported is that of the files made |
| SeedPages.NeverResurrected | engine/appshell/seed-pages.mjs:61-66 | over any interleaving of seedings and deletions a row removed while its file survives, or whose page was deleted, is not listed again |
| SeedPages.RowsStayFirst | engine/appshell/seed-pages.mjs:61-81 | over any interleaving the member's rows, less those of deleted pages, stay first and in order |
| SeedPages.TombstonedListing | engine/appshell/seed-pages.mjs:26-34 | a tombstoned id's file is never created, and it is newly listed exactly when the manifest was missing and the template lists it |
| SeedPages.SeedingTwice | engine/appshell/seed-pages.mjs:12-16 | a second seeding from the same template changes nothing |
| SeedPages.DeletingTakesOne | engine/appshell/page-delete.mjs:2-8 | a deletion takes one page's file and rows, tombstones it, and leaves every other page |
| SeedPages.DeletionIs | engine/appshell/page-delete.mjs:16-42 | when a deletion is carried out, and all that it does: the file, the page's rows, the tombstone, nothing else |
| SeedPages.DeletedStaysDeleted | engine/appshell/seed-pages.mjs:26-30 | over any interleaving of seedings with changing templates and deletions, a deleted page stays deleted |
| SeedPages.PagesAreTheMembers | engine/appshell/seed-pages.mjs:12-13 | no event but its own deletion changes or removes a page |
| SeedPages.MissingManifestRelists | engine/appshell/seed-pages.mjs:43-57 | without the manifest a deleted page is listed again, without its file |
| SeedPages.Box.SeedPageFiles | engine/appshell/seed-pages.mjs:58-59 | creates exactly the template's pages that are neither there nor tombstoned |
| SeedPages.Box.Seed | engine/appshell/seed-pages.mjs:42-155 | the seeder leaves exactly the seeded dashboard and counts what it created |
| SeedPages.Box.Delete | engine/appshell/page-delete.mjs:18-43 | the deletion leaves exactly the deleted dashboard, or refuses and changes nothing |
| SeedPages.MergeRows | engine/appshell/seed-pages.mjs:73-81 | the merge loop appends exactly the rows of pages created now |
| SeedPages.Filtered | engine/appshell/page-delete.mjs:32 | filtering takes out every row of the id and no other |
| ChatRetention.Chats.Walk | engine/box/chat-retention.mjs:35-48 | the recursive walk leaves exactly the pruned tree and counts what it removed and kept |
| ChatRetention.Chats.Visit | engine/box/chat-retention.mjs:37-46 | one entry of a folder is pruned and counted |
| ChatRetention.PruneChats | engine/box/chat-retention.mjs:30-51 | at the member's cutoff the projects folder is pruned and the counts are of the chats below it |
| ChatRetention.AtLeastADay | engine/box/chat-retention.mjs:23-28 | no setting makes a chat younger than a day go |
| ChatRetention.PrunedFile | engine/box/chat-retention.mjs:23-46 | a file goes exactly when it lies below the root, is a regular file named .jsonl and was last written more days ago than the setting, or 30 where that is no number of at least one |
| ChatRetention.CountedChats | engine/box/chat-retention.mjs:34-50 | the counts are of the chats that went and of those that were left |
| ChatRetention.ExactlyTheExpiredGo | engine/box/chat-retention.mjs:11-15 | exactly the expired transcripts below the root go, links and everything else stay, and a folder below the root stays exactly when something is left in it |
| ChatRetention.LaterAbsorbsEarlier | engine/box/chat-retention.mjs:30-51 | a later run leaves what it would have left had the earlier never been; the same time again changes nothing |
| ChatRetention.KeptIsWhatIsLeft | engine/box/chat-retention.mjs:34-50 | the transcripts before are those removed and those left, and of those left another run at the same time would remove none |
| Grants.NormTwice | engine/box/grants.mjs:40 | a normalised address is its own normal form, for any lower-casing that is settled after once and makes no white space |
| Grants.AsciiLowers | engine/box/grants.mjs:40 | lower-casing the ASCII letters is one such |
| Grants.EmailIs | engine/box/grants.mjs:36 | an address is text, an '@', text, a dot and text, none of them with white space or what a shell reads |
| Grants.AcceptsIs | engine/box/grants.mjs:83-165 | which calls are carried out, by the address, the role, the rows and the holder on record, flat or nested |
| Grants.AppliedIs | engine/box/grants.mjs:83-165 | and what each does to every row and to the holder |
| Grants.WhoIs | engine/box/grants.mjs:168-175 | the holder on record comes first, then the active rows |
| Grants.CutIs | engine/box/grants.mjs:225-229 | the machines cut and the nameless ones counted, by their account and status |
| Grants.CallKeeps | engine/box/grants.mjs:83-165 | no call makes two rows of one address, changes a holder once set, management or ownership; a refused call changes nothing |
| Grants.CallMovesAccess | engine/box/grants.mjs:104-133 | an accepted activation adds its address to the active ones, a revocation takes its address away, nothing else moves any |
| Grants.EveryRun | engine/box/grants.mjs:83-165 | over every run from no grants: one row an address, holder, management and ownership stay, active rows are the addresses activated since last revoked |
| Grants.HolderStays | engine/box/grants.mjs:148-151 | a holder, once there is one, is the holder after any further calls |
| Grants.AccessIsActivation | engine/box/grants.mjs:168-175 | an address other than the holder can open the mineral exactly when it was activated since its last revocation |
| Grants.ListedTwice | engine/box/grants.mjs:168-175 | the list repeats nobody, but for a holder with a live grant: exactly then |
| Grants.ClaimedWhileGranted | engine/box/grants.mjs:153-165 | and that happens on any holderless mineral by granting, activating and claiming |
| Grants.Find | engine/box/grants.mjs:94 | the first row of a normalised address, or that there is none |
| Grants.Box.Grant | engine/box/grants.mjs:83-102 | a new pending row or a changed role; refuses bad addresses, roles and the holder |
| Grants.Box.Activate | engine/box/grants.mjs:110-118 | makes the waiting row active, or refuses |
| Grants.Box.Revoke | engine/box/grants.mjs:125-133 | takes the row out, or refuses |
| Grants.Box.Claim | engine/box/grants.mjs:153-165 | sets the holder of a holderless mineral, refuses another's, leaves one's own |
| Grants.Box.CutMachines | engine/box/grants.mjs:225-229 | the roster loop cuts exactly the enrolled machines that name the account and counts those that name nobody |
| Grants.Box.RevokeWithCascade | engine/box/grants.mjs:218-234 | revokes, then cuts exactly those machines; without a grant it cuts none |

## Left out

- Links above a path: paths are lexical, so a link among the ancestors of a target, a request, CLAUDE.md or the projects folder, which the operating system would follow, is not modelled.
- Operating-system faults within a step (permissions, full disks, races) except where a run's failing step is a parameter.
- tar, AES, JSON syntax and real clocks: an archive is a map of its members, encryption a change of size, times are given. Whether a passphrase opens a snapshot is an input.
- `resolveSource`, the passphrase prompt, arguments and log wording of `engine/restore.mjs`.
- RestoreRun.Mineral.Run: a snapshot unpacks to folders, files and links, as a backup does; what git checks out on the disk, what is left to commit in the end, and how the naming script cleans a name and edits the profile's text are parameters; the push to GitHub is not modelled.
- RestoreRun.Mineral.KeepPassphrase: a link where the passphrase or the name is recorded counts as something that can be neither read nor written; the operating system would follow it.
- RoundTrip.OldStateComesBack: the policy's targets are taken to exist, to be no sockets and to lie outside the door's names; --without-telegram is off.
- RoundTrip.SnapshotRestorable: does not say what mode tar gives an ancestor it makes up; any mode is allowed.
- OpenSnapshot.BackupOpens: names hold no slash and are no dots, as a file system has it, and no target looks like a drive letter; where links lead is said for a state directory other than the file system's root.
- LinkPaths.LinkTest: a link leads where its text does, name by name; links met on the way there are not followed.
- Backup.Collect: says nothing about repeats when targets are nested, where the script archives a member twice.
- Sorted names are in order of characters, which for names outside the Basic Multilingual Plane differs from JavaScript's order by code units; only the order of listings depends on it.
- Nightly.EveryMomentIsSafe: what an adopted night leaves in backups/crads/ has no size bound, and a later night that is not adopted may commit it, so the cap is claimed for backups/ itself; `Nightly.EveryCommit` says which commits keep to it. Heartbeat, escrow and log contents are left out.
- GitRestore.RestoredCommit: the never-commit list is any set of paths; git's pattern syntax is not modelled.
- GitRestore.RestoringAgain: supposes open-folder is neither on the never-commit list nor the dropped link, since the names to keep are read from it.
- MovePack.PackPaths: names in the folder hold no slash or backslash; `map` of writePack, the paused manifest and the engine-skill filter of packForDown are left out.
- OpenPack.Move: what the added entries hold (the merged connections, the paused server files) is a parameter; the brain's own bundle is left out.
- Base64.DecodeEncode: Node's reader is taken to skip characters outside the alphabet and to stop at the first '='.
- OpenSsh.GenerateDeployKeypair: keys, seed and check bytes are arbitrary inputs; that the key pair matches is cryptography.
- BrainClaudeMd.BuildsASection: the block's prose is any list of pieces without '<' that holds the brain root somewhere, of which the actual wording is one; a STATE.md path given for it holds no '<', as the one constant does not.
- BrainClaudeMd.UpsertAbsorbs: the first section is a well-formed block, as buildBrainSection makes it.
- PageLint.LintPage: the rules' regular expressions are arbitrary functions from a text to hits inside it, and code and code-sample spans arbitrary spans inside it.
- ImapFramer.ReadAll: numbers beyond 2^53 are left out, and what a command does is not modelled.
- TokenRefresh.NeverSpendsASpentToken: a refusal spends nothing and a run is not killed, which `TokenRefresh.KillWindow` shows to be needed; `TokenRefresh.KeptThroughKills` is the same over killed runs.
- SeedPages.DeletedStaysDeleted: the manifest and tombstones are not edited outside seeding and deleting; other manifest fields and the contents of a new ownership.json are left out.
- ChatRetention.PruneChats: every folder can be read; a projects folder that is a link is not followed.
- Grants.EveryRun: timestamps of rows and claims are left out.
- Grants.Box.RevokeWithCascade: the roster can be read and a listed machine can be revoked.
- Health checks, device login, shell scripts, desktop hosts and build plumbing are not modelled.
