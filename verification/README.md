# Verification of the engine's hard core

A Dafny model of five parts of a WebAssembly engine for the BEAM, and proofs of
what they are for. `dafny verify dfyconfig.toml` checks all of it.

- **Files of a WASI guest** (`c_src/wasi_file_nif.c`). `wasi_kernel.dfy` is the
  environment: a tree of directories, a name table that may change between any
  two system calls, a descriptor table, and the descriptors other threads open
  and close meanwhile. `wasi_names.dfy` says what the components of a path are.
  `wasi_walk.dfy` proves containment, exact depth, conservation of descriptors
  and a call bound for the path walk; `wasi_errors.dfy` whose error it answers;
  `wasi_resolve.dfy` that it refines pathname resolution by splicing;
  `wasi_final.dfy` treats `resolve_final`, `wasi_numbers.dfy`, `wasi_twins.dfy`,
  `wasi_reuse.dfy` and `wasi_anchor.dfy` what it does with numbers other threads
  may take, `wasi_hops.dfy`, `wasi_goal.dfy` and `wasi_chain.dfy` what it
  answers against pathname resolution, and `wasi_chain_inputs.dfy` paths on
  which the two part; `wasi_acts.dfy` and `wasi_rename.dfy` say what the
  operations on one name and on two act on; `wasi_code.dfy` has the walks and
  operations in their own imperative form. `wasi_handles.dfy` is the locking of
  handles under every interleaving. `wasi_readdir.dfy` fills one batch of a
  listing in place, and `wasi_paging.dfy` is the client that pages through it.
- **Paged copy-on-write memory** (`src/wasm_memory.erl`, `docs/memory.md`, and
  the translation cache of `variant4.py`). `words.dfy` is the arithmetic on
  bits, `integers.dfy` that on signed numbers, `paged_memory.dfy` the value of a
  memory, `memory_start.dfy` a memory just restored, `memory_steps.dfy` what
  each change leaves readable, `first_write.dfy` any number of agents at once,
  `first_write_progress.dfy` one of them left alone, `flat_memory.dfy` the
  bytes. `memory_arrays.dfy` and `memory_code.dfy` are the operations on real
  arrays, `translations.dfy` and `translation_cache.dfy` the two-entry cache,
  `loaded_values.dfy` what a load answers after a store.
- **The instruction decoder** (`src/wasm_decode_code.erl`,
  `src/wasm_leb128.erl`) and the builder of fixtures
  (`scripts/build-snapshot-fixtures.py`): `leb128.dfy`, `decode_code.dfy`,
  `encode_code.dfy`, `decode_bounds.dfy`, `decode_canonical.dfy`,
  `decode_errors.dfy` (what is said of bytes that are refused),
  `snapshot_fixtures.dfy`. The format is that of the WebAssembly Core
  Specification, sections 5.2.2, 5.4 and 5.5.
- **The JSON codec of the Lua reactor** (`worker_reactor.c`): `json_text.dfy` is
  the grammar and what a text denotes, `lua_json_reader.dfy` the index-driven
  reader, `lua_json_writer.dfy` the writer and the round trip.
- **The code cache on disk** (`src/wasm_code_cache.erl`):
  `code_cache_frame.dfy`, `code_cache_store.dfy` (stores in pieces, crashes,
  eviction, damage), `code_cache.dfy` (one call at a time) and
  `code_cache_path.dfy` (which directory may be used).

Where the source changes things in place the model does too, and each such
method is tied to a function of values about which the properties are proved.
Classes carry the value they stand for as a ghost field.

Where code and documentation differ, the model follows the code:

- the comment at `c_src/wasi_file_nif.c:786-793` says that a walk skips `.`;
  `step` opens it like any directory;
- the comment at line 449 promises that `..` is refused only when it would leave
  the preopen; the code refuses any `..` above the link's own directory, also
  where that stays inside the preopen (`WasiChainInputs.RefusedInside`);
- the comment at line 402 calls the refusal of a last `..` deliberate, since
  containment was enforced for everything before it; so a link to `x/..` is
  refused where pathname resolution follows it
  (`WasiChainInputs.RefusedForDots`);
- the loop at lines 434-459 takes chains of seven links at the end of a path,
  where `walk_open`, with the same limit of eight, takes eight
  (`WasiChainInputs.RefusedAtEight`), and every turn of it has a fresh budget
  for nesting, so that it can answer a path `walk_open` refuses
  (`WasiChainInputs.AnsweredThoughNested`). `WasiChain.ResolveFinalAgrees` says
  of every path whether one of these, or a closed directory, comes first;
- the reader of the Lua codec hands the four bytes behind `\u` to
  `tonumber`, which takes a sign and blanks and fewer digits
  (`LuaJsonReader.SignedCodeCloses`, `LuaJsonReader.ShortCodeGoesOn`);
- `docs/design-notes.md` calls the access-site test one for crossing a page
  boundary; the generated code tests for crossing a word;
- the budget for symlinks bounds nesting, not the links of one path;
- the length in a cache frame is taken modulo 2^32, so a longer beam is written
  and then always a miss.

The digest of the cache is not taken to be injective, since no function to 32
bytes is: results name a collision instead.

## Model

| member | source | states |
|---|---|---|
| `WasiWalk.StepSound` | c_src/wasi_file_nif.c:251-306 | One component, under any interference between system calls: every name looked up is inside the root's subtree, in a directory whose true depth is the counter; on failure the open set is unchanged, on success exactly the answered descriptor is added, at exactly the depth answered; the directory walked from is never closed. |
| `WasiWalk.WalkFromSound` | c_src/wasi_file_nif.c:308-347 | The same for a whole path or link text from any directory inside the subtree, at every nesting of links. |
| `WasiWalk.WalkRestSound` | c_src/wasi_file_nif.c:328-346 | The loop keeps it from any point: directories the walk opened are closed as it leaves them, the caller's stays open. |
| `WasiWalk.WalkOpenSound` | c_src/wasi_file_nif.c:349-355 | A guest path from a preopen: contained at every call, exact in depth, one descriptor added or none. |
| `WasiWalk.WalkParentSound` | c_src/wasi_file_nif.c:369-414 | The walk that stops one short: contained, a name other than `..`, and an owned directory inside the subtree or the caller's own, unowned. |
| `WasiKernel.DepthIsUnique` | c_src/wasi_file_nif.c:225-230 | A directory has one depth below a root, so a counter that is right is the true depth. |
| `WasiKernel.ComponentCount` | c_src/wasi_file_nif.c:330 | The components strtok_r takes from n characters are at most half as many, rounded up. |
| `WasiNames.ComponentsAre` | c_src/wasi_file_nif.c:326-334 | What strtok_r takes from a path, said without it: a list of names is the path's components if and only if none is empty or has a slash in it and the path is a run of slashes, the first name, a run of slashes, the second, and so on, with at least one slash between any two. |
| `WasiNames.OneName` | c_src/wasi_file_nif.c:326-334 | A name without a slash is one component, whatever its length. |
| `WasiNames.LinkTextWhole` | c_src/wasi_file_nif.c:280-286 | A link's text is read whole if it is below 4096 characters, and else cut to its first 4095. |
| `WasiErrors.StepTells` | c_src/wasi_file_nif.c:224-274 | Under any interference a hard error of openat (neither ELOOP, ENOTDIR nor ENXIO) is what the walk answers; and what it answers that is no error of its own is the host's, said of a name by this walk. |
| `WasiErrors.WalkFromTells` | c_src/wasi_file_nif.c:308-347 | The same of a whole text, at any nesting of links: a refusal by the walk and an error of the host are never taken for each other. |
| `WasiErrors.WalkParentTells` | c_src/wasi_file_nif.c:369-414 | The same of the walk to a parent. |
| `WasiWalk.StepBounded` | c_src/wasi_file_nif.c:251-306 | One component costs at most 1 call with no nesting left, else 2 and the calls of a text walked with one level less. |
| `WasiWalk.WalkOpenBounded` | c_src/wasi_file_nif.c:232-234 | openat and readlinkat calls of any walk, on cyclic links too: at most c(8), where c(0) = N and c(b) = N * (2 + c(b - 1)), N bounding the components of the path and of every link text. |
| `WasiWalk.WalkOpenAlwaysBounded` | c_src/wasi_file_nif.c:278-298 | The size of the path buffers alone bounds the calls of every walk on every file system. |
| `WasiWalk.WalkParentBounded` | c_src/wasi_file_nif.c:369-414 | The walk to a parent makes no more calls than the walk of the whole path may. |
| `WasiResolve.StepResolves` | c_src/wasi_file_nif.c:251-306 | On a file system that stands still, a component walked recursively ends where splicing the link's text into what is left to resolve ends. |
| `WasiResolve.WalkRestResolves` | c_src/wasi_file_nif.c:308-347 | The recursive walk of a text refines the same number of steps of the splicing machine, from any point of the resolution. |
| `WasiResolve.WalkOpenResolves` | c_src/wasi_file_nif.c:349-355 | On every path the walk agrees with pathname resolution by splicing (section 4.13 of POSIX.1-2017, relative links only, nesting at most 8, depth never below 0): the same file or directory, or the same refusal for the same reason; and resolution has no other outcome. Where the last name may not be followed, or the nesting is used up, the reference answers ELOOP for a plain file used as a directory too, as the code does; section 4.13 has ENOTDIR. |
| `WasiResolve.OutcomeUnique` | c_src/wasi_file_nif.c:278-298 | Resolution has at most one outcome, however many steps are taken. |
| `WasiFinal.ResolveFinalSound` | c_src/wasi_file_nif.c:427-460 | Under any interference, other threads opening and closing descriptors included, every call is inside the preopen's subtree, no caller's descriptor is closed and nothing is leaked, provided no number closed at line 454 is read through again while other threads are about. |
| `WasiFinal.ResolveFinalAnchor` | c_src/wasi_file_nif.c:449-457 | With no other thread opening descriptors, the descriptor answered is open if and only if no link followed was a bare name read in a directory this walk had opened; in that case line 454 has closed it, and the operation still answers it. |
| `WasiFinal.ResolveFinalEndsOffLinks` | c_src/wasi_file_nif.c:434-443 | On a file system that stands still, when the descriptor answered is open, the name answered is not a symlink in its directory. |
| `WasiFinal.ResolveFinalBounded` | c_src/wasi_file_nif.c:427-460 | openat and readlinkat calls of the whole operation: at most 9 * c(8) + 8. |
| `WasiReuse.ResolveFinalConserves` | c_src/wasi_file_nif.c:427-460 | Whatever any thread does, closed numbers taken by others included: at most the one descriptor answered is kept, and nothing is closed that this call did not open. |
| `WasiTwins.LosesAlike` | c_src/wasi_file_nif.c:449-457 | Whether the operation follows a bare name read in a directory it had opened, and then reads through the closed number, is the same whatever other threads open and close: until it happens every number used is the call's own, and threads decide numbers only. |
| `WasiReuse.ContainedExactly` | c_src/wasi_file_nif.c:449-457 | Containment survives every choice of what other threads open and close if and only if one run, beside any one choice, does not do that. |
| `WasiAnchor.LosesOnTree` | c_src/wasi_file_nif.c:449-457 | On a file system that stands still it is done exactly when the loop, followed on the tree alone from the path, comes to such a name: no thread, number or clock comes into the condition. |
| `WasiAnchor.ContainedOnTree` | c_src/wasi_file_nif.c:449-457 | So containment under every choice of other threads is a property of the tree and the path, checkable before the call, in both directions. |
| `WasiReuse.AnswersClosed` | c_src/wasi_file_nif.c:449-457 | An input: `d/l` with `l` linking to `f` answers a number that is closed. |
| `WasiReuse.PathOpConserves` | c_src/wasi_file_nif.c:558-670 | Whatever other threads do, the open set is as it was on every way out, and nothing is closed but what was opened. |
| `WasiActs.PathOpOnce` | c_src/wasi_file_nif.c:558-670 | Under any interference an operation that takes the name as written makes exactly one call on a name, the path's last, in a directory inside the preopen, and answers ok if and only if that call succeeds, else that call's errno; or it makes none and is no success. |
| `WasiActs.PathOpOnTree` | c_src/wasi_file_nif.c:558-670 | On a file system that stands still: one call, on the name and in the directory that resolution of what stands before it comes to (for an operation that follows, on the name `resolve_final` answers), or none, and the reason; an operation it does not know acts on nothing. |
| `WasiActs.PathOpRefuses` | c_src/wasi_file_nif.c:570-575 | A path or an argument of 4096 characters or more is refused before anything is opened, then a directory there is no copy of. |
| `WasiReuse.PathOpContained` | c_src/wasi_file_nif.c:558-670 | Every name looked up or acted on is inside the preopen, the name acted on never being `..`, provided no closed number is used while other threads are about. |
| `WasiReuse.PathOpContainedExactly` | c_src/wasi_file_nif.c:558-670 | That condition is exact: containment whatever other threads do, if and only if one run of the operation, beside any one choice of theirs, uses no closed number. |
| `WasiAnchor.PathOpContainedOnTree` | c_src/wasi_file_nif.c:558-670 | And on a file system that stands still, if and only if the operation follows no last link, or refuses its sizes, or the tree and the path lead to no such name. |
| `WasiHops.HopFromHere` | c_src/wasi_file_nif.c:449-453 | On the tree alone: a hop counted from the link's directory is the hop counted from the preopen, unless the text asks for `..` in that directory; then it is refused. |
| `WasiHops.CountingFromZero` | c_src/wasi_file_nif.c:449-453 | The parent walk counting from 0 in a directory at true depth d lands where the walk counting from d does if and only if the text never asks for `..` while standing there, or is refused with the true depth too; when it asks it is refused. |
| `WasiGoal.DestinationMeans` | c_src/wasi_file_nif.c:417-426 | What a follow operation is for, said of pathname resolution alone: the destination of a path is the directory and name before which resolution, following the last name too, stands with that name its last and no link, and no other; or the refusal it ends in, and then it stands before no such name, `..` in the root aside. |
| `WasiGoal.TextGoal` | c_src/wasi_file_nif.c:357-368 | Resolution of a text whose last name is followed goes on from the parent of that name, resolved by itself, unless the parent meets a link deeper than the nesting that is left this far down the chain; then it is refused. |
| `WasiChain.ResolveFinalLands` | c_src/wasi_file_nif.c:427-460 | The whole operation, on a file system that stands still with no other thread, answers what its loop does on the tree alone: a name in a directory, a refusal, or a closed number. |
| `WasiChain.PathParts` | c_src/wasi_file_nif.c:427-460 | On the tree: that answer against the destination of the same path, by the first thing on the chain that the two make different things of, each of five kinds; with none of them they are equal. |
| `WasiChain.ResolveFinalAgrees` | c_src/wasi_file_nif.c:427-460 | On a file system that stands still with no other thread: where resolution comes to a name, the operation answers it if and only if no text on the way climbs out of its own directory, none ends in `..`, no directory is closed and read through again, and there are at most seven links. Where resolution is refused, it is refused alike in exactly the cases listed: nothing of the five came first, or a climb or a last `..` where resolution is refused for leaving the preopen, or a text too deep for resolution where the loop too runs out of links. |
| `WasiChainInputs.RefusedInside` | c_src/wasi_file_nif.c:449-453 | An input: with `d/w` linking to `./../g` the operation refuses, while resolution stands on `g`, inside the preopen. |
| `WasiChainInputs.RefusedForDots` | c_src/wasi_file_nif.c:402-409 | An input: with `w` linking to `x/..` the operation refuses `w`, while resolution stands in the directory `w` is in. |
| `WasiChainInputs.RefusedAtEight` | c_src/wasi_file_nif.c:434-459 | An input: `1`, eight links from a plain file, is ELOOP for the operation; resolution and walk_open come to the file. |
| `WasiChainInputs.AnsweredThoughNested` | c_src/wasi_file_nif.c:434-453 | An input: with `a` linking to `1/f`, and `1` eight links from a directory, the operation answers `f` in that directory; resolution and walk_open refuse the path for its nesting. |
| `WasiCode.Step` | c_src/wasi_file_nif.c:251-306 | The imperative step leaves the kernel exactly as the function whose properties are proved, and answers the same. |
| `WasiCode.WalkFrom` | c_src/wasi_file_nif.c:308-347 | The loop over `cur`, `cur_owned` and `d` computes that function of the starting kernel. |
| `WasiCode.WalkOpen` | c_src/wasi_file_nif.c:349-355 | The containment, depth and conservation of a guest path, stated on the process itself. |
| `WasiCode.WalkParent` | c_src/wasi_file_nif.c:369-414 | The parent loop computes its function. |
| `WasiCode.ResolveFinal` | c_src/wasi_file_nif.c:427-460 | The loop over the budget computes its function. |
| `WasiCode.PathOp` | c_src/wasi_file_nif.c:558-670 | Acting on one name: refusals for size before anything is opened, badarg for an operation or argument it does not know after the walk, else the outcome of the call; the open set as it was on every one of these ways out whatever other threads do; and everything inside the preopen unless a closed number is used while other threads are about. |
| `WasiRename.PathOp2Acts` | c_src/wasi_file_nif.c:680-726 | Rename and link, under any interference: both parents found, a known operation makes exactly one call, its first end the last name of the first path in the directory that walk found, its second end the second's, and answers ok if and only if it succeeds, else its errno; an unknown operation is badarg and acts on nothing; a parent not found is answered with its reason, and nothing is acted on. |
| `WasiRename.PathOp2Once` | c_src/wasi_file_nif.c:680-726 | So there is one call or none; the first end is inside the first preopen, the second inside the second. |
| `WasiRename.PathOp2OnTree` | c_src/wasi_file_nif.c:680-726 | On a file system that stands still the two ends are the names and directories that resolution of what stands before each last name comes to, the first path's first. |
| `WasiRename.PathOp2Conserves` | c_src/wasi_file_nif.c:680-726 | Whatever other threads do, the open set is as it was on every way out and nothing is closed but what was opened. |
| `WasiRename.PathOp2Contained` | c_src/wasi_file_nif.c:680-726 | Every name looked up or acted on is inside one of the two preopens, the first end of the call inside the first. |
| `WasiCode.PathOp2` | c_src/wasi_file_nif.c:680-726 | The imperative operation does exactly that, early refusals and badarg included: the open set restored, everything inside the two preopens, one call with its ends in order or none. |
| `WasiHandles.StepCounted` | c_src/wasi_file_nif.c:84-136 | Whatever one thread or the kernel does next, every opening has been closed at most once and openings are closings plus what is open. |
| `WasiHandles.StepControl` | c_src/wasi_file_nif.c:132-136 | A thread inside a call holds the lock of its handle and the number it read is still that handle's; every open descriptor has exactly one owner that will close it. |
| `WasiHandles.StepHolds` | c_src/wasi_file_nif.c:809-832 | Every step of every operation keeps the whole invariant. |
| `WasiHandles.EveryRun` | c_src/wasi_file_nif.c:1108-1152 | In every interleaving of open, dup, calls on the descriptor, readdir, path walks and operations that hold any number of descriptors of their own, close and the destructor, with numbers recycled: a call reaches the file its handle was opened on, every close is of an open descriptor and closes an opening at most once, nothing is reached through a closed handle, and every open descriptor is owned. |
| `WasiHandles.ClosedAnswersEbadf` | c_src/wasi_file_nif.c:132-136 | An operation that gets the lock after close answers EBADF and gives the lock back. |
| `WasiHandles.AfterClose` | c_src/wasi_file_nif.c:1108-1119 | In every interleaving, once any call of close on a handle has returned: nothing is reached through the handle or closed as its descriptor ever again, no open descriptor is the handle's, and every other operation that gets as far as looking at it answers EBADF and gives the lock back. |
| `WasiHandles.CloseCloses` | c_src/wasi_file_nif.c:1116 | The step that closes: the number goes back to the kernel, that opening is counted as closed, for the first time, the handle has no descriptor left, and no other descriptor changes. |
| `WasiHandles.CloseClosesStream` | c_src/wasi_file_nif.c:1115 | And the step before it: the directory stream's own descriptor is closed, once. |
| `WasiHandles.LockTakes` | c_src/wasi_file_nif.c:132-136 | A call waits for the handle's lock; a free lock is taken, a taken one is not. |
| `WasiHandles.OpenGoesOn` | c_src/wasi_file_nif.c:132-136 | An operation that looks at an open handle goes on with the handle's number. |
| `WasiHandles.UnlockFrees` | c_src/wasi_file_nif.c:809-832 | An operation that is done gives the lock back; what a copy made is the thread's then, and nothing else changes. |
| `WasiHandles.UseReaches` | c_src/wasi_file_nif.c:809-832 | A call on the descriptor of an open handle is made, once, and reaches the file the handle was opened on. |
| `WasiHandles.CopyCopies` | c_src/wasi_file_nif.c:1136-1141 | A copy of an open handle is a new number for the same file, or there is none. |
| `WasiHandles.MadeIsOpen` | c_src/wasi_file_nif.c:1143-1147 | A new handle is open on the file the thread held, under its number, and its lock is free. |
| `WasiHandles.DirOpens` | c_src/wasi_file_nif.c:965-978 | A listing of a directory uses the handle's stream, or opens one on a copy the first time; what is no directory is left alone. |
| `WasiHandles.AdoptAdopts` | c_src/wasi_file_nif.c:974-978 | The copy becomes the handle's stream, or is closed. |
| `WasiHandles.StreamReaches` | c_src/wasi_file_nif.c:980-983 | Reading the stream reaches the handle's own directory. |
| `WasiHandles.LetGoCloses` | c_src/wasi_file_nif.c:1146 | A descriptor that becomes no handle is closed by the thread that has it. |
| `WasiHandles.DestroyCloses` | c_src/wasi_file_nif.c:106-109 | The destructor closes what the handle still has. |
| `WasiReaddir.Put` | c_src/wasi_file_nif.c:937-942 | Writes the little-endian bytes of the value and leaves every other byte of the buffer, before and behind them. |
| `WasiReaddir.PutEntry` | c_src/wasi_file_nif.c:1051-1058 | A whole entry is written where the buffer was filled to, and nothing before it changes. |
| `WasiReaddir.PutTruncated` | c_src/wasi_file_nif.c:1029-1048 | As much of the straddling entry as there is room for, and never a byte past the buffer. |
| `WasiReaddir.Fill` | c_src/wasi_file_nif.c:993-1059 | The loop leaves in the buffer the first min(buflen, total) bytes of the listing, and says when the read failed. |
| `WasiReaddir.Readdir` | c_src/wasi_file_nif.c:981-1071 | One batch is the listing from the cookie's position cut at the buffer's size; an error is answered only when nothing was read. |
| `LittleEndian.RoundTrip` | c_src/wasi_file_nif.c:937-942 | A value that fits is read back from its bytes. |
| `WasiPaging.ParseOne` | c_src/wasi_file_nif.c:1051-1058 | A whole entry parses back to its fields and leaves what follows. |
| `WasiPaging.ParseBatch` | c_src/wasi_file_nif.c:1029-1048 | The whole entries of a batch are exactly the next ones that fit, whatever was cut off after them. |
| `WasiPaging.ShortBatchIsLast` | c_src/wasi_file_nif.c:993-1059 | A batch shorter than the buffer holds everything up to the end or the read error. |
| `WasiPaging.ResumesPast` | c_src/wasi_file_nif.c:1000-1002 | The d_next of the last entry kept resumes exactly past it. |
| `WasiPaging.PagingIsExact` | c_src/wasi_file_nif.c:981-1059 | A client that resumes from its last whole entry sees every entry once and in order, whenever the buffer holds 24 bytes and the longest name. |
| `WasiPaging.WholeDirectory` | c_src/wasi_file_nif.c:981-1059 | From cookie 0 that is the whole directory, in at most one request more than there are entries. |
| `WasiPaging.ToldOfEntry` | c_src/wasi_file_nif.c:999-1024 | Of each entry the client is told, in the entry's own fields: its name and the cookie behind it; the type the kernel reports and the inode with it; where the kernel does not know the type, the type a stat of the name gives, if it can be had, and its inode unless that is 0. |
| `WasiPaging.ErrorExactly` | c_src/wasi_file_nif.c:1061-1065 | A request is answered with an error if and only if there is nothing left before the failure, and it is the failure's. |
| `Words.SameBits` | src/wasm_memory.erl:671-716 | Numbers with the same bits are the same number: what the bit arithmetic of loads and stores is reasoned by. |
| `Words.ExtractedBit` | src/wasm_memory.erl:671-685 | The bits of a field taken out of a word. |
| `Words.ReplacedBit` | src/wasm_memory.erl:687-700 | The bits of a word with a field replaced: those of the value inside the field, the old ones outside it. |
| `Words.JoinedBit` | src/wasm_memory.erl:680-684 | The bits of a field that starts in one word and ends in the next. |
| `Words.XorIsNot` | test/audit/raw/a4-attribution/cache-diag/scripts/variant4.py:181-184 | The mask made with bxor keeps the bits that bnot keeps, on a 64-bit word. |
| `PagedMemory.LocatedNames` | src/wasm_memory.erl:1139-1158 | A slot number is recovered from its table entry, and the chunk the entry names is the one whose slots include it. |
| `PagedMemory.SlotNamesOne` | src/wasm_memory.erl:1156-1158 | Two table entries that name the same slot are the same entry. |
| `PagedMemory.Placed` | src/wasm_memory.erl:733-757 | A word that is not the image's is inside an array that exists, at an index below its size. |
| `PagedMemory.Apart` | src/wasm_memory.erl:733-748 | Two words are never at the same place, across image pages, arena slots and growth chunks. |
| `PagedMemory.PutWord` | src/wasm_memory.erl:739-748 | Writing where a word is changes that word and no other. |
| `MemorySteps.PublishIsSilent` | src/wasm_memory.erl:1090-1099 | Publishing a slot that holds the page changes nothing anyone can read. |
| `MemorySteps.FilledSlotIsSilent` | src/wasm_memory.erl:1119-1135 | Nor does filling a slot no page is in, which then holds the image's page. |
| `MemorySteps.ExtendIsSilent` | src/wasm_memory.erl:1170-1206 | Nor does appending arena chunks. |
| `MemorySteps.GrowKeeps` | src/wasm_memory.erl:431-505 | Growing keeps every word, adds words that are zero, and moves nothing. |
| `MemorySteps.PutKeepsZeros` | src/wasm_memory.erl:739-748 | Writing a word leaves the unclaimed slots and the space above the memory's size zero. |
| `FirstWrite.HitIsRight` | docs/design-notes.md:483-496 | A hit needs no bounds test: the word is in bounds, its array exists, and the entry's array and index hold the word of the address. |
| `FirstWrite.PublishEither` | docs/memory.md:120-130 | Whether the compare-and-exchange is won or lost, what the writer goes on with is the page's place, and nothing readable changed. |
| `FirstWrite.HeldIsRight` | docs/memory.md:137-141 | What an agent reads at the place it found is the word of the address: no reader sees an unfilled slot. |
| `FirstWrite.AdvanceSafe` | src/wasm_memory.erl:1084-1115 | No step of an agent on its way to a word, faulting, claiming, extending, losing the race, can be read by anyone. |
| `FirstWrite.StepSafe` | src/wasm_memory.erl:1042-1049 | Every step of any agent keeps the invariant, and nothing that has been found moves. |
| `FirstWrite.StepIsFlat` | docs/memory.md:114-130 | Each step is one write of a flat memory, one growth of it, or invisible. |
| `FirstWrite.RunIsFlat` | docs/memory.md:112-145 | Over any run of any number of agents the paged memory is the flat memory that its writes and growths, in order, leave. |
| `FirstWrite.RunStays` | docs/memory.md:134-135 | A page's entry goes from 0 to a slot at most once and never changes again; slots and chunks never move. |
| `FirstWrite.EveryRun` | docs/memory.md:120-145 | From a memory just restored, after any run: no two pages share a slot, no slot being filled is published, no two agents fill the same one, and a hit on any cache entry is in bounds and addresses the right word. |
| `FirstWriteProgress.WriteGetsThere` | src/wasm_memory.erl:1084-1135 | Nobody is ever stuck: wherever the others stopped, an agent that sets out to write any word of the memory, is not disturbed and not refused by the node, holds the word after finitely many steps of its own. |
| `MemoryStart.ImageShift` | src/wasm_memory.erl:305-310 | The chunk over an image is the largest of at most 1 MiB that the image's size is a multiple of. |
| `MemoryStart.RoundUpShift` | src/wasm_memory.erl:321-332 | Without an image, the least chunk from a page on that holds the clamped size. |
| `MemoryStart.ImageEndsOnChunk` | src/wasm_memory.erl:302-310 | The image region ends exactly where a chunk does. |
| `MemoryStart.StartSound` | src/wasm_memory.erl:228-303 | A memory just made, over an image or not, is one its operations can start from. |
| `MemoryStart.StartReads` | src/wasm_memory.erl:293-303 | What can be read in it is the image's bytes, and zeros above them up to its size, though no page was copied. |
| `Translations.SamePage` | src/wasm_memory.erl:1160-1168 | The words of a page lie one after another from its first. |
| `Translations.RefillTranslates` | test/audit/raw/a4-attribution/cache-diag/scripts/variant4.py:157-159 | What a miss puts in the cache translates every word of its page. |
| `Translations.TranslatesOn` | docs/design-notes.md:493-496 | A translation that is right stays right through every later change. |
| `FlatMemory.ExtractIsLittle` | src/wasm_memory.erl:671-679 | A field of a word is the little-endian number of its bytes. |
| `FlatMemory.JoinIsLittle` | src/wasm_memory.erl:680-684 | So is the field of a straddling load. |
| `FlatMemory.ReplacedByte` | src/wasm_memory.erl:693-697 | Byte by byte, what a store inside a word leaves. |
| `FlatMemory.LowPutByte` | src/wasm_memory.erl:698-707 | Byte by byte, what a straddling store leaves in its first word. |
| `FlatMemory.HighPutByte` | src/wasm_memory.erl:698-716 | And in its second. |
| `MemoryArrays.Memory.constructor` | src/wasm_memory.erl:264-303 | The arrays of a memory just made, all distinct and new, hold what that memory is. |
| `MemoryArrays.Create` | src/wasm_memory.erl:228-303 | A memory is made exactly when the node grants its pages, the larger of the minimum and the image; it can be operated on, and reads as the image followed by zeros. |
| `MemoryArrays.Memory.PutAt` | src/wasm_memory.erl:739-748 | One array element changes, and the memory value with it; every other array is untouched. |
| `MemoryArrays.Memory.ExtendArena` | src/wasm_memory.erl:1170-1206 | The published count grows to the target with the chunks already there, silently, or the node refused and nothing changed. |
| `MemoryArrays.ArenaCost` | src/wasm_memory.erl:1170-1182 | The pages an extension is charged are, to the byte, the sizes of its new arrays. |
| `MemoryArrays.Memory.ClaimSlot` | src/wasm_memory.erl:1103-1115 | A fresh slot inside the published arena, claimed by nobody else, or a refusal that consumes nothing. |
| `MemoryArrays.Memory.EnsurePrivate` | src/wasm_memory.erl:1084-1099 | The page has a slot from now on, holding what the page read as before; or the budget refused and nothing readable changed. |
| `MemoryArrays.Memory.PublishSlot` | src/wasm_memory.erl:1090-1099 | The exchange publishes the slot if the page is still the image's, and answers the slot that stands. |
| `MemoryCode.Prepare` | src/wasm_memory.erl:1072-1081 | Every image page the range touches is private, and no page but those is made so, or the write is refused; either way nothing readable has changed. |
| `MemoryCode.LoadIsLittle` | src/wasm_memory.erl:671-685 | Reading n bytes at any address, inside a word or across two, gives the little-endian number of those bytes of the flat memory. |
| `MemoryCode.Load` | src/wasm_memory.erl:519-522 | A load traps exactly when a byte is out of bounds, else gives the little-endian number of its bytes. |
| `MemoryCode.WriteInWord` | src/wasm_memory.erl:687-697 | Exactly the bytes of the store change. |
| `MemoryCode.WriteStraddling` | src/wasm_memory.erl:698-716 | Also across two words, the two pages being prepared before either changes. |
| `MemoryCode.Store` | src/wasm_memory.erl:537-540 | A store of any integer traps exactly when out of bounds, else changes exactly bytes [A, A+N) to those of the value modulo 256^N, or is refused with nothing readable changed; and no page but those it touches is copied. |
| `MemoryCode.LoadBytes` | src/wasm_memory.erl:789-811 | The bytes of the range, or a trap. |
| `MemoryCode.StoreBytes` | src/wasm_memory.erl:814-847 | All bytes of the range change, or, trapped or refused by the budget part of the way, none. |
| `MemoryCode.Copy` | src/wasm_memory.erl:898-916 | The destination receives what the source held before, however the ranges overlap; trapped or refused, nothing changes. |
| `MemoryCode.CopyForward` | src/wasm_memory.erl:943-951 | Ascending copies are right when the destination does not start inside the source. |
| `MemoryCode.CopyBackward` | src/wasm_memory.erl:1019-1022 | Descending ones are right when it does. |
| `TranslationCache.Find` | test/audit/raw/a4-attribution/cache-diag/scripts/variant4.py:194-218 | The array and index found are where the word of the address is; `none` and `image` otherwise. |
| `TranslationCache.FindExactly` | test/audit/raw/a4-attribution/cache-diag/scripts/variant4.py:194-218 | It finds exactly what is in one word, in the bounds the handle knows, and in no arena chunk the handle has not seen; an image page exactly if nobody has written to it. |
| `TranslationCache.TlbLoad` | test/audit/raw/a4-attribution/cache-diag/scripts/variant4.py:149-171 | The answer is the little-endian bytes of the flat memory or a trap, and the cache it returns is right. |
| `TranslationCache.CachedLoad` | test/audit/raw/a4-attribution/cache-diag/scripts/variant4.py:73-84 | At an access site, whatever a sound cache holds: the flat memory's bytes or a trap, and a sound cache. |
| `TranslationCache.LoadRemembers` | test/audit/raw/a4-attribution/cache-diag/scripts/variant4.py:149-171 | The page of an access that came to an array is first in the cache afterwards and the one that was first is second; any other access leaves the cache alone. |
| `TranslationCache.TwoPagesStay` | test/audit/raw/a4-attribution/cache-diag/scripts/variant4.py:149-171 | So two pages used in turn both stay, whichever is used next. |
| `TranslationCache.TlbStore` | test/audit/raw/a4-attribution/cache-diag/scripts/variant4.py:173-189 | For any integer, exactly bytes [A, A+N) change, or a trap or refusal changes none; the cache returned is right for the memory after it. |
| `TranslationCache.CachedStore` | test/audit/raw/a4-attribution/cache-diag/scripts/variant4.py:73-84 | The same at an access site, by a hit on either entry or by the helper; and the cache afterwards remembers the access as after a load. |
| `TranslationCache.ImageBytes` | test/audit/raw/a4-attribution/cache-diag/scripts/variant4.py:160-168 | The bytes taken from the image's binary are those of the flat memory. |
| `Integers.BandIsRemainder` | src/wasm_memory.erl:540 | The mask a store takes of its value is the remainder, whatever the sign. |
| `Integers.SignedOnly` | src/wasm_num.erl:138-151 | The signed number of n bits is the only one in range that is the value but for whole turns. |
| `Integers.DecodedIs` | src/wasm_exec.erl:2167-2179 | What an integer load pushes: the signed number of the bits read, or, for a narrow unsigned load, the number itself. |
| `Integers.GeneratedAgrees` | src/wasm_core.erl:2231-2255 | Generated code, which flips the sign bit and subtracts it back, widens every integer load as the interpreter does. |
| `LoadedValues.LoadsWhatWasStored` | src/wasm_exec.erl:2120-2135 | A store and a load at one width and address give the value modulo that width, as the load's type reads it. |
| `LoadedValues.RoundTripsInFull` | src/wasm_exec.erl:2120-2135 | At full width that is the value itself, for every value of the type. |
| `Leb128.UlebExact` | src/wasm_leb128.erl:66-82 | An unsigned read answers v and rest exactly when the input starts with one whole integer of at most ceil(bits / 7) bytes worth v, below 2^bits, and rest is what follows. |
| `Leb128.SlebExact` | src/wasm_leb128.erl:86-110 | The signed read, likewise, with the sign taken from bit 6 of the last byte. |
| `Leb128.UlebRefuses` | src/wasm_leb128.erl:66-82 | Of any other bytes it says why: too few, and every one of them saying that more follow; as many as the bits fill, and every one saying so; or a whole integer that is out of range. |
| `Leb128.SlebRefuses` | src/wasm_leb128.erl:86-110 | The signed read likewise. |
| `Leb128.U32RoundTrip` | src/wasm_leb128.erl:34-35 | The shortest encoding of any 32-bit number is read back with any bytes after it. |
| `Leb128.U64RoundTrip` | src/wasm_leb128.erl:38-39 | Likewise for 64 bits. |
| `Leb128.SRoundTrip` | src/wasm_leb128.erl:46-62 | Likewise for every signed number of the width. |
| `Leb128.PutUIsShortest` | src/wasm_leb128.erl:66-82 | No encoding that is read as the same unsigned number is shorter than the one written. |
| `Leb128.PutSIsShortest` | src/wasm_leb128.erl:86-110 | Nor is any of a signed number. |
| `DecodeCode.Count` | src/wasm_decode_code.erl:527-531 | A declared count is accepted only if it is at most the bytes that remain. |
| `DecodeCode.OpcodesByShape` | src/wasm_decode_code.erl:95-400 | The decoder's classes of opcodes are those of a table of all 256, by what follows each. |
| `DecodeCode.OpcodesByShapeFC` | src/wasm_decode_code.erl:404-436 | The same of the numbers behind the prefix 0xFC. |
| `DecodeCode.OneByteTypes` | src/wasm_decode.erl:336-425 | A one-byte type is an abstract heap type from 0x69 to 0x74 and a number type from 0x7B to 0x7F, wherever it is read. |
| `DecodeCode.VecU32` | src/wasm_decode_code.erl:503-511 | A vector answers as many elements as declared and what follows them is no longer than what was given. |
| `EncodeCode.MemReads` | src/wasm_decode_code.erl:485-501 | A memory argument reads back, with its memory index flagged exactly when it is not 0. |
| `EncodeCode.BlockTypeReads` | src/wasm_decode_code.erl:58-90 | Every block type reads back: empty, each value type, general reference forms and type indices. |
| `EncodeCode.CatchesRead` | src/wasm_decode_code.erl:439-467 | A vector of handlers reads back. |
| `EncodeCode.InstrsRead` | src/wasm_decode_code.erl:34-43 | A run of instructions and the end or else after it reads back, leaving exactly the bytes that follow. |
| `EncodeCode.DecodeInverts` | src/wasm_decode_code.erl:26-51 | Decoding the canonical encoding of any well-formed tree yields the tree and exactly the bytes that follow. |
| `EncodeCode.DecodeInvertsWritten` | src/wasm_decode_code.erl:26-51 | The same with the encoding as one byte string in front of the rest. |
| `DecodeBounds.DecodeIsLinear` | src/wasm_decode_code.erl:26-51 | On every input: what is decoded is a tree of the format, the rest is a strict suffix of the input, and instructions, labels, handlers and types together are fewer than the bytes read. |
| `DecodeBounds.Normalises` | src/wasm_decode_code.erl:26-51 | Decoding, encoding canonically and decoding again is decoding. |
| `DecodeCanonical.EncodingGivesBack` | src/wasm_decode_code.erl:26-51 | Encoding what was decoded gives the bytes back if and only if they were canonical: every integer as short as it can be, no else empty, memory 0 never named, every nullable abstract reference one byte. |
| `DecodeCanonical.LongInteger` | src/wasm_decode_code.erl:116-139 | An input: a label spelled in two bytes decodes as in one, and is not canonical. |
| `DecodeBounds.EmptyElse` | src/wasm_decode_code.erl:105-113 | An input: an empty else and an absent one decode alike, so encoding cannot invert decoding. |
| `DecodeCanonical.EmptyElseIsNot` | src/wasm_decode_code.erl:105-113 | The empty else is not canonical. |
| `DecodeBounds.ExplicitMemory` | src/wasm_decode_code.erl:485-501 | An input: memory 0 named in full decodes as memory 0 left out. |
| `DecodeCanonical.ExplicitMemoryIsNot` | src/wasm_decode_code.erl:485-501 | The one that names it is not canonical. |
| `DecodeErrors.CutShort` | src/wasm_decode_code.erl:26-51 | Of bytes the decoder accepts a prefix is accepted exactly when it holds all that was read; any shorter one is refused as an end come upon, or a count that does not fit, and for nothing else. |
| `DecodeErrors.MoreChangesNothing` | src/wasm_decode_code.erl:26-51 | Bytes behind an expression change nothing in it, and mend nothing that was refused for another reason. |
| `DecodeErrors.RunThen` | src/wasm_decode_code.erl:34-43 | Behind any run of instructions the decoder does as it does without them. |
| `DecodeErrors.AnyDepth` | src/wasm_decode_code.erl:36-51 | What it says of a fault is what it says of it alone, however deep in blocks, either half of an if, and guarded bodies the fault is, and whatever comes before it at each depth. |
| `DecodeErrors.ElseOutOfPlace` | src/wasm_decode_code.erl:26-51 | An else is refused as unexpected everywhere but in the first half of an if. |
| `DecodeErrors.NoOpcode` | src/wasm_decode_code.erl:385-400 | A byte that is no opcode is an illegal opcode at any place, three prefixes being other modules'. |
| `DecodeErrors.NoSubopcode` | src/wasm_decode_code.erl:434-436 | So is a number above 17 behind 0xFC. |
| `DecodeErrors.BadInteger` | src/wasm_decode_code.erl:402-436 | An instruction whose first integer is refused is refused for the same reason, at any place. |
| `DecodeErrors.BadI32` | src/wasm_decode_code.erl:218-220 | So is a constant. |
| `DecodeErrors.BadI64` | src/wasm_decode_code.erl:221-223 | Of either width. |
| `DecodeErrors.CutFloat` | src/wasm_decode_code.erl:224-231 | A floating point constant with too few bytes is an end come upon. |
| `DecodeErrors.HighFlags` | src/wasm_decode_code.erl:485-490 | An alignment of 128 or more is malformed, on every load and store and at any place. |
| `DecodeErrors.CountTooLarge` | src/wasm_decode_code.erl:527-531 | Labels or types that are declared to be more than the bytes that remain are out of bounds, at any place. |
| `DecodeErrors.HandlersTooMany` | src/wasm_decode_code.erl:439-442 | So are handlers. |
| `DecodeErrors.NoHeapType` | src/wasm_decode.erl:402-422 | A negative code that is no abstract heap type is malformed, at any place. |
| `DecodeErrors.NoBlockType` | src/wasm_decode_code.erl:58-85 | So is one that is no block type. |
| `DecodeErrors.NoValType` | src/wasm_decode.erl:336-362 | A byte that starts no value type is malformed wherever in a vector of them it comes, at any place. |
| `DecodeErrors.NoCatch` | src/wasm_decode_code.erl:449-459 | So is a byte that starts no handler. |
| `SnapshotFixtures.EncodeU` | scripts/build-snapshot-fixtures.py:16-25 | The loop writes the shortest encoding, on every number that is not negative. |
| `SnapshotFixtures.EncodeS` | scripts/build-snapshot-fixtures.py:27-34 | The signed loop does so on every integer. |
| `SnapshotFixtures.U32Stops` | scripts/build-snapshot-fixtures.py:16-25 | `u32` stops if and only if the number is not negative. |
| `SnapshotFixtures.SplitInverts` | scripts/build-snapshot-fixtures.py:39-40 | A sequence of sections is read back exactly when every payload is under 4 GiB. |
| `SnapshotFixtures.EncodeModule` | scripts/build-snapshot-fixtures.py:52-68 | The output is the magic and the sections of the parts that are there, in the order of their ids. |
| `SnapshotFixtures.ModuleSplits` | scripts/build-snapshot-fixtures.py:52-68 | Ids are strictly increasing for every choice of parts, and a reader gets exactly the sections back, or none if one is 4 GiB or more. |
| `SnapshotFixtures.PartsInSections` | scripts/build-snapshot-fixtures.py:52-68 | Each part that is there is in the section of its own id, whole, and there is no other section. |
| `SnapshotFixtures.VecReads` | scripts/build-snapshot-fixtures.py:36-37 | A vector reads back as its count and then its items, each in its place. |
| `SnapshotFixtures.FuncsRead` | scripts/build-snapshot-fixtures.py:56 | The function section's vector, read by the decoder of vectors of numbers, is the numbers it was made of. |
| `SnapshotFixtures.EncodeBody` | scripts/build-snapshot-fixtures.py:73-75 | A body is its size, its locals, its instructions and the end byte. |
| `SnapshotFixtures.BodyDecodes` | scripts/build-snapshot-fixtures.py:73-75 | A body made from an encoded tree reads back: its size is what follows, and after its locals the decoder finds exactly the tree. |
| `LuaJsonReader.SkipSpace` | test/fixtures/lang/lua_reactor/worker_reactor.c:90-93 | Skips exactly the white space: everything passed is white, and what is stopped at is not. |
| `LuaJsonReader.MatchNumber` | test/fixtures/lang/lua_reactor/worker_reactor.c:144 | On an integer that nothing numeric follows the pattern takes exactly the integer. |
| `LuaJsonReader.ReadString` | test/fixtures/lang/lua_reactor/worker_reactor.c:120-139 | Any string text, with any mix of raw bytes and escapes, is read to the bytes it denotes, and the index ends behind its closing quote. |
| `JsonText.Utf8Reads` | test/fixtures/lang/lua_reactor/worker_reactor.c:129 | What `utf8.char` writes for a code below 65536 is read as that code, and nothing else, by a reader of RFC 3629 that lets surrogates through: one byte below 128, two below 2048, else three. |
| `JsonText.EscapedLetters` | test/fixtures/lang/lua_reactor/worker_reactor.c:127 | The letters b, f, n, r and t behind a backslash are the control characters of RFC 8259; any other byte is itself. |
| `JsonText.Alphabet` | test/fixtures/lang/lua_reactor/worker_reactor.c:90-93 | White space, blanks and digits are the characters the source lists. |
| `JsonText.Marks` | test/fixtures/lang/lua_reactor/worker_reactor.c:94-120 | The marks and words of the grammar are the characters they are spelt with. |
| `JsonText.HexLetters` | test/fixtures/lang/lua_reactor/worker_reactor.c:129 | Every hex digit, in either case, is worth its place among the sixteen. |
| `JsonText.OnlyHexLetters` | test/fixtures/lang/lua_reactor/worker_reactor.c:129 | And nothing else is a hex digit. |
| `Decimals.DigitsArePlaces` | test/fixtures/lang/lua_reactor/worker_reactor.c:144-145 | Each digit of a decimal is worth its place. |
| `Decimals.DecimalStarts` | test/fixtures/lang/lua_reactor/worker_reactor.c:65 | No decimal that is written starts with a zero but zero itself. |
| `JsonText.NumeralExactly` | test/fixtures/lang/lua_reactor/worker_reactor.c:129 | `tonumber(text, 16)` is n exactly when the text is blanks, a sign perhaps, hex digits worth n, and blanks. |
| `LuaJsonReader.StringEndsExactly` | test/fixtures/lang/lua_reactor/worker_reactor.c:122-138 | On any text the string loop finds a closing quote if and only if whole pieces and then a quote are ahead, a piece being a byte, an escape, or `\u` and four bytes that are a number and not negative. |
| `LuaJsonReader.GoesOnExactly` | test/fixtures/lang/lua_reactor/worker_reactor.c:122-138 | On any text it never ends if and only if whole pieces are ahead and then the text stops: at once, behind a lone backslash, or behind `\u` and fewer than four bytes that are a number and not negative. |
| `LuaJsonReader.RaisesExactly` | test/fixtures/lang/lua_reactor/worker_reactor.c:129 | On any text it raises if and only if whole pieces are ahead and then `\u` with four bytes, or as many as are left, that are no number or a negative one. |
| `LuaJsonReader.OneOfThree` | test/fixtures/lang/lua_reactor/worker_reactor.c:122-138 | Of every text exactly one of the three holds. |
| `LuaJsonReader.EscapedQuoteGoesOn` | test/fixtures/lang/lua_reactor/worker_reactor.c:122-138 | An input: on `a\"` it never ends. |
| `LuaJsonReader.ShortCodeGoesOn` | test/fixtures/lang/lua_reactor/worker_reactor.c:129-130 | An input: nor on text that ends in `\u41`, where the index passes the end. |
| `LuaJsonReader.SignedCodeCloses` | test/fixtures/lang/lua_reactor/worker_reactor.c:129 | An input: `\u+041` and a quote are read as `A` and a closing quote. |
| `LuaJsonReader.ReadValue` | test/fixtures/lang/lua_reactor/worker_reactor.c:94-147 | Any text of the grammar, with white space anywhere between tokens, and with any byte the reader passes in a colon's or a closing bracket's place, is read to what it denotes, and the index ends exactly behind it; a list or an object may run into the end of the text, and then the index is one past the end. |
| `LuaJsonReader.ReadItems` | test/fixtures/lang/lua_reactor/worker_reactor.c:114-119 | A list, ended by whatever byte is not a comma or by the end of the text, is read to the table of its items in order, nulls dropped. |
| `LuaJsonReader.ReadFields` | test/fixtures/lang/lua_reactor/worker_reactor.c:101-109 | An object, with any byte for a colon and ended by whatever byte is not a comma or by the end of the text, is read to the table its fields leave when stored in order: a later field wins, null removes. |
| `LuaJsonReader.Length` | test/fixtures/lang/lua_reactor/worker_reactor.c:116 | The length operator answers some border of the table, which is all Lua promises. |
| `LuaJsonReader.Decode` | test/fixtures/lang/lua_reactor/worker_reactor.c:148-152 | The empty string is nil; a text, whatever follows it, is what it denotes. |
| `JsonText.MeaningIsPlain` | test/fixtures/lang/lua_reactor/worker_reactor.c:94-147 | What is read of such a text never mixes list and string keys and never holds nil. |
| `LuaJsonWriter.EscapesInvert` | test/fixtures/lang/lua_reactor/worker_reactor.c:68-72 | Reading an escaped byte string gives the string, and every piece of it is one section 7 of RFC 8259 allows. |
| `LuaJsonWriter.EncodeString` | test/fixtures/lang/lua_reactor/worker_reactor.c:67-72 | The quoted text is the escapes of the string's bytes between quotes. |
| `Decimals.DecimalInverts` | test/fixtures/lang/lua_reactor/worker_reactor.c:65 | The decimal digits of a number are worth the number. |
| `LuaJsonWriter.Encode` | test/fixtures/lang/lua_reactor/worker_reactor.c:59-88 | For every value: the output is a text of the grammar without white space, and it denotes the value if and only if the value is plain. |
| `LuaJsonWriter.EncodeTable` | test/fixtures/lang/lua_reactor/worker_reactor.c:73-86 | The same for a table, whichever border its length is and whatever order its entries come in. |
| `LuaJsonWriter.RoundTrip` | test/fixtures/lang/lua_reactor/worker_reactor.c:59-152 | Decoding what was encoded gives the value back if and only if every table in it is a list or has only string keys. |
| `LuaJsonWriter.WrittenIsPrintable` | test/fixtures/lang/lua_reactor/worker_reactor.c:68-72 | No control character is ever printed, inside a string or outside. |
| `CodeCacheFrame.UnframeExact` | src/wasm_code_cache.erl:147-158 | unframe answers a beam if and only if the file is the frame of that beam and the beam is below 2^32 bytes. |
| `CodeCacheFrame.FrameRoundTrip` | src/wasm_code_cache.erl:236-238 | A framed beam is read back exactly when it is below 2^32 bytes; a longer one is a miss. |
| `CodeCacheFrame.DamageIsAMiss` | src/wasm_code_cache.erl:85-88 | A damaged frame is a miss or still the beam, unless the damage exhibits two beams with one digest. |
| `CodeCacheFrame.TruncationIsDamage` | src/wasm_code_cache.erl:38-39 | Cutting a file anywhere is damage of that kind. |
| `CodeCacheFrame.LengthGuards` | src/wasm_code_cache.erl:147-148 | With its length field intact a file that lost or gained bytes is a miss, with no assumption on the digest. |
| `CodeCacheFrame.ForgingIsPossible` | src/wasm_code_cache.erl:38-40 | Rewriting payload, length and digest together does turn one entry into another, as the module's documentation says. |
| `CodeCacheStore.EntriesApart` | src/wasm_code_cache.erl:495-496 | Two keys never share a file. |
| `CodeCacheStore.TempIsNoEntry` | src/wasm_code_cache.erl:173-177 | A temporary is never looked up as an entry. |
| `CodeCacheStore.StepGood` | src/wasm_code_cache.erl:168-191 | Every step, of a store, of eviction, of damage or a crash, keeps: what stands at an entry was written as one whole frame of a beam stored under that key. |
| `CodeCacheStore.EveryRun` | src/wasm_code_cache.erl:126-158 | After any run of stores in pieces, crashes between any two steps, evictions and damage, a lookup gives a beam only if it was stored under that key, or shares its digest with one that was. |
| `CodeCacheStore.HalfWrittenIsUnseen` | src/wasm_code_cache.erl:160-166 | Until it publishes, a store changes the lookup of no key, and neither does a crash. |
| `CodeCacheStore.PublishShows` | src/wasm_code_cache.erl:178-186 | Publishing makes the key read as the beam, if below 2^32 bytes and undamaged, and changes no other key. |
| `CodeCacheStore.TempsAreSwept` | src/wasm_code_cache.erl:180-190 | With no store running the only temporaries are those a crash left. |
| `CodeCache.Cache.Store` | src/wasm_code_cache.erl:168-191 | The directory after one call, for every outcome of its file calls. |
| `CodeCache.Cache.Read` | src/wasm_code_cache.erl:126-158 | A lookup answers a beam if and only if the directory may be used and the key's entry is a regular file that holds exactly the frame of that beam, which is below 2^32 bytes; in every other state of the disk it is a miss. |
| `CodeCache.StoredShows` | src/wasm_code_cache.erl:168-191 | One call leaves no temporary, its own key reads as the beam if it was published, and other keys change only by eviction. |
| `CodeCache.StoreIsARun` | src/wasm_code_cache.erl:168-191 | Each call is a run of the concurrent machine, so what holds of every run holds of every sequence of calls. |
| `CodeCachePath.AncestorOkMeans` | src/wasm_code_cache.erl:429-433 | The rule on an ancestor holds exactly when it is a real directory that nobody but root and the node's user can change. |
| `CodeCachePath.AncestorsMeans` | src/wasm_code_cache.erl:392-406 | Going up accepts exactly when that is so of every directory from there to the root. |
| `CodeCachePath.CheckMeans` | src/wasm_code_cache.erl:348-406 | The directory is usable exactly when its path is absolute without dot components, the node's user owns it, and every directory on the path can be changed by root and that user alone. |
| `CodeCachePath.RefusalIsDeepest` | src/wasm_code_cache.erl:392-406 | A refusal names the deepest directory that fails. |

## Left out

- `WasiFinal.ResolveFinalSound`: containment is proved of the runs that meet its condition. The descriptor answered can be a closed number (lines 449-456), which another thread can have taken; that is kept as the code has it, and `WasiReuse.ContainedExactly` says when it matters.
- `WasiFinal.ResolveFinalEndsOffLinks`: says nothing of an answer whose descriptor is closed; `WasiFinal.ResolveFinalAnchor` says when that is.
- `WasiReuse.ContainedExactly`: what other threads hold are directories and files of the same tree of nodes, and there is a directory outside the preopen.
- `WasiWalk.WalkOpenSound`: assumes that no directory is given another parent while a walk runs, and that no directory has an entry of its own named `.` or `..`; every other change between two system calls is allowed. Strings hold no NUL.
- `WasiResolve.WalkOpenResolves`: where the code answers ELOOP for a plain file met with nothing left to follow, so does the reference.
- `WasiHandles.EveryRun`: mutex creation succeeds; lines 121-125 and the callers at 781, 803 and 1148 disagree about who closes the descriptor when it does not.
- `WasiReaddir.Readdir`: a cookie the stream never emitted is taken to be at its end, and the allocation of the buffer succeeds.
- `FirstWrite.RunIsFlat`: an access is one word; atomic read-modify-write operations and the keeper's transactions are single steps or left out.
- `MemoryCode.StoreBytes`: runs of words are moved one word at a time; the run is only a faster way to the same words.
- `TranslationCache.CachedLoad`: the bits read, before they are widened; `Integers.DecodedIs` widens integers, and the conversion of bits to floating point is left out.
- `TranslationCache.TlbLoad`: see `TranslationCache.CachedLoad`.
- `TranslationCache.TlbStore`: the bits of a floating point value are an argument.
- `TranslationCache.CachedStore`: likewise.
- `MemoryArrays.Create`: ceilings of an instance, the holder of a memory and whether its size is visible elsewhere are left out; the only refusal is the node's.
- `MemoryCode.Copy`: between two memories, `memory.fill` and `memory.init` are left out: they add only easy members.
- `EncodeCode.DecodeInverts`: the prefixes 0xFB, 0xFD and 0xFE go to decoders of other modules and are an error here; opcodes with the same immediates are one constructor that keeps the opcode.
- `SnapshotFixtures.EncodeU`: only for numbers that are not negative, on which alone the loop ends (`SnapshotFixtures.U32Stops`).
- `LuaJsonReader.Decode`: on texts of the grammar only: names of fields are strings, and of texts that stop in the middle only a list or an object behind its last item or field. What becomes of every other string is said by `LuaJsonReader.GoesOnExactly` and `LuaJsonReader.RaisesExactly`.
- `LuaJsonReader.MatchNumber`: numbers with a fraction or an exponent, or beyond 64 bits, are floating point and left out, and a number is followed by a byte that cannot belong to it.
- `LuaJsonReader.ReadString`: strings that close; on the others it does not answer, but goes on for ever (`LuaJsonReader.GoesOnExactly`) or raises (`LuaJsonReader.RaisesExactly`).
- `LuaJsonReader.ReadValue`: on texts of that grammar.
- `LuaJsonReader.ReadItems`: likewise.
- `LuaJsonReader.ReadFields`: likewise.
- `LuaJsonWriter.Encode`: no floating point (`%.14g` loses digits), no functions or userdata; Lua's own `#`, `pairs`, `tostring`, `tonumber`, `table.concat` and `utf8.char` are taken as their manual describes them.
- `LuaJsonWriter.EncodeTable`: keys are integers and strings; on any other kind of key `tostring` is left out.
- `LuaJsonWriter.RoundTrip`: of values without floating point.
- `CodeCacheStore.EveryRun`: damage is bounded: since a file was written, its damage left the digest field or the payload alone, or broke the magic or format, or left less than a header. `CodeCacheFrame.ForgingIsPossible` shows why. Damage to a temporary while it is being written, and a rename undone by a crash, are left out.
- `CodeCache.Cache.Store`: which entries eviction takes is arbitrary, save the one just written; access times are left out.
- `CodeCachePath.CheckMeans`: one state of the disk; the probe for the uid, creating the directory, the table of verdicts and systems other than Unix are left out.
- Open flags other than those a walk depends on, file times, `fstat`, `fsync`, `ftruncate`, names of error numbers and the conversion of terms.
- The validation of modules, the heap, the keeper, snapshots and the compiler itself.
