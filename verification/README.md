# Models of 4BSD utilities

This project models the data structures, allocators, matchers and interpreters
of some classic Berkeley programs, and proves what they keep over whole runs:
the C shell's variable table, storage allocator, job table, parser, expression
evaluator, pattern matcher and brace expansion, the Bourne shell's storage and
its `break` and `continue`, the editor `ed`'s regular expressions, temporary
file, line array and cipher, the record conversions of `dd`, and the archives
of `tar`.

Code that works in place is a class or a method over arrays, proved against a
specification that does not mention how it works: a snapshot tree and the map it
stands for, a declarative meaning of patterns, one coherent file behind two
buffers, busy blocks that tile an arena, structured control flow, a grammar.
Laws about those specifications are lemmas.

| file | what it models |
|---|---|
| `Names.dfy`, `AvlTree.dfy`, `SetTable.dfy` | `bin/csh/sh.set.c`: the variable table |
| `CshMalloc.dfy` | `bin/csh/alloc.c`: the allocator |
| `CshExp.dfy`, `CshValue.dfy` | `bin/csh/sh.exp.c`: expressions |
| `CshMatch.dfy`, `CshBrace.dfy` | `bin/csh/sh.glob.c`: patterns and braces |
| `CshSyntax.dfy`, `CshGrammar.dfy`, `CshMeaning.dfy`, `CshParse.dfy` | `bin/csh/sh.parse.c`: the parser |
| `CshJobs.dfy` | `bin/csh/sh.proc.c`: the job table |
| `EdPattern.dfy`, `EdSyntax.dfy`, `EdRegex.dfy` | `bin/ed/ed.c`: regular expressions |
| `EdTemp.dfy`, `EdCrypt.dfy` | `bin/ed/ed.c`: the temporary file and its cipher |
| `EdLines.dfy` | `bin/ed/ed.c`: the line array |
| `ShStorage.dfy` | `bin/sh/blok.c`, `bin/sh/stak.c`: heap and stack |
| `ShExec.dfy` | `bin/sh/xec.c`: control flow |
| `Dd.dfy` | `bin/dd/dd.c`: record conversion |
| `Tar.dfy` | `bin/tar/tar.c`: archives |
| `Common.dfy` | what several of them need |

A contract written `P == true` is proved in one piece instead of conjunct by
conjunct.

What the outside world does is a parameter: exit statuses, globbing, file tests
and shifts of the expression evaluator, the answers of `sbrk` and of the disk.
Memory from `sbrk` reads as zero.  Everything else is arbitrary.

## Where the code fails what one would expect

Each of these is proved, with the exact condition under which the code does
what one would expect:

- An operand of `||` or `&&` that does not matter is still globbed and read as a
  number, so `1 || a` is an error (`CshExp.SkippedWordMatters`,
  `CshExp.ShortCircuitI`).
- A pattern that ends in `**` asks for one more character
  (`CshMatch.TwoStarsAtEnd`, `CshMatch.GmatchExact`).
- `realloc` of a block that has been freed finds its size only if it is the one
  freed last: the longer search is never made, because its test compares an
  unsigned number with zero; then nothing is copied (`CshMalloc.Malloc.Realloc`,
  `CshMalloc.Malloc.FirstOnly`).
- A `break` with more levels than loops leaves `execbrk` set, and the shell
  ignores every line that follows (`ShExec.Shell.TopLevel`, `ShExec.Shell.Lines`).
- `gdelete` leaves a different dot than the loop it stands in for when exactly
  one line is marked (`EdLines.SameDot`).
- `break` and `continue` keep loop depths in a `char`, so beyond 127 loops they
  do something else (`ShExec.Shell.ExecuteBreak`, `ShExec.Shell.EndLoop`).
- `continue` in the condition of an `until` ends the loop
  (`ShExec.ContinueInCondition`).
- With an empty stack `addblok` turns whatever lies above it into an item
  (`ShStorage.Storage.AddBlok`).

## Model

| member | source | states |
|---|---|---|
| SetTable.Run | bin/csh/sh.set.c:402-511 | Every run of assignments, single unsets and pattern unsets from an empty header leaves a tree that is ordered by name, balanced, with exact parent links and `v_bal`, and that stands for exactly the finite map the commands describe. |
| SetTable.Balance | bin/csh/sh.set.c:579-666 | If the subtree at a link has grown by one (insertion) or shrunk by one (deletion), the loop restores balance everywhere, stopping early, and loses, adds and reorders nothing; all links of the heap agree with the resulting tree. |
| AvlTree.StepBalanced | bin/csh/sh.set.c:579-666 | One round makes the node balanced again, and the stop test `(v_bal == 0) ^ d` holds exactly when the subtree still has its old height. |
| SetTable.Table.Setq | bin/csh/sh.set.c:402-427 | Sets one name to the words without their quote bits, which are the words themselves if nothing is quoted, and changes no other binding. |
| SetTable.Table.SetAndFind | bin/csh/sh.set.c:353-427 | What is set is what is found afterwards, word by word. |
| SetTable.TrimFacts | bin/csh/sh.glob.c:489-497 | Stripping keeps the number of words and the lower seven bits of every byte; a byte that is nothing but a quote bit ends its word, and words without quotes stay as they are. |
| Names.LessMeans | bin/csh/sh.set.c:411-418 | Names are in the order of a dictionary, with first bytes compared as signed characters and all others as unsigned ones. |
| SetTable.Table.Adrof | bin/csh/sh.set.c:353-367 | Finds a node exactly if the map binds the name, and that node holds the name and its value. |
| SetTable.Table.Unsetv1 | bin/csh/sh.set.c:470-511 | Removes exactly one binding, also when a node with two children takes over its predecessor's contents. |
| SetTable.Table.Unset1 | bin/csh/sh.set.c:444-458 | Terminates, removes exactly the variables that one of the patterns matches, and complains about exactly the patterns that match nothing when their turn comes. |
| SetTable.Madrof | bin/csh/sh.set.c:337-350 | Finds the first variable in name order that the pattern matches, or null if there is none. |
| SetTable.Table.Plist | bin/csh/sh.set.c:668-701 | A walk by links alone lists every binding exactly once in name order. |
| SetTable.ListingUnique | bin/csh/sh.set.c:668-701 | A map has only one such listing, so what is printed is determined by the bindings. |
| EdRegex.Regex.Compile | bin/ed/ed.c:1285-1412 | Succeeds exactly if the text up to the delimiter is a well-formed pattern whose code fits, and then the code is that of the pattern the grammar assigns to the text, with the anchor and bracket count; an empty pattern keeps the previous program; on an error the program is gone. |
| EdRegex.Regex.CompileClass | bin/ed/ed.c:1363-1399 | A bracket expression becomes a class with exactly the members that the text denotes, or fails exactly if it is not closed or too long. |
| EdSyntax.RangeMeans | bin/ed/ed.c:1375-1395 | A range `lo-hi` adds exactly the characters from `lo` to `hi` to a class; a descending one adds its two ends. |
| EdSyntax.CharactersMean | bin/ed/ed.c:1326-1405 | A character without another meaning denotes itself, and so do escaped ones; a dot denotes any, and an escaped digit a back-reference. |
| EdSyntax.DollarMeans | bin/ed/ed.c:1363-1367 | A `$` denotes the end of the line just before the delimiter, and itself everywhere else. |
| EdSyntax.StarMeans | bin/ed/ed.c:1357-1361 | A star at the start of a pattern or behind a bracket denotes itself, and otherwise repeats the item before it. |
| EdSyntax.Themselves | bin/ed/ed.c:1357-1405 | The whole patterns `a$b`, `*a`, `a*` and `a$`. |
| EdSyntax.ShowMeans | bin/ed/ed.c:1285-1412 | For every item list with properly nested brackets there is a text that denotes it, whatever follows the delimiter: the escapes and the rules for stars and the final dollar lose nothing. |
| EdRegex.Regex.Advance | bin/ed/ed.c:1465-1570 | Succeeds exactly if the items match from this place with each star as greedy as possible and backing off one at a time; leaves the end of that match in `loc2` and the places of the brackets in the two tables, and touches no other entry. |
| EdPattern.PreferCorrect | bin/ed/ed.c:1525-1550 | The match that backing off finds is a match in the declarative sense, exists whenever any match does, and at the first item where it differs from any other match it is the longer one. |
| EdRegex.Regex.Execute | bin/ed/ed.c:1414-1463 | For a program without back-references: returns true exactly if some part of the line matches (from its start, if anchored), `loc1` is the leftmost such start and `loc2` ends the greediest match there; the scan for the first character gives the same. |
| EdRegex.Regex.Find | bin/ed/ed.c:443-463 | Compiling what was typed and trying it on a line: whether there is a match, the leftmost start and the greediest end are given by the typed text and the line alone. |
| EdRegex.Regex.Cclass | bin/ed/ed.c:1585-1597 | A character is accepted exactly if its membership among the class members agrees with the flag. |
| EdRegex.MeaningUsable | bin/ed/ed.c:1310-1340 | In every pattern that compiles, brackets are numbered below NBRA and none is opened or closed twice. |
| EdTemp.Temp.Run | bin/ed/ed.c:877-977 | For every interleaving of `putline` and `getline`, each address returned always yields its line again, encrypted or not; lines may cross blocks or end on a boundary. |
| EdTemp.Temp.Putline | bin/ed/ed.c:895-921 | Adds exactly one line at a new address and keeps every line already there; fails exactly if the file would grow beyond its last block. |
| EdTemp.Temp.Getline | bin/ed/ed.c:877-893 | Brings the line that was put at the address into `linebuf` and changes no line. |
| EdTemp.Temp.GetRead | bin/ed/ed.c:924-977 | Whichever of the two buffers or the disk holds the block, the bytes that come back are those of the one coherent file; the input buffer is never dirty. |
| EdTemp.Temp.GetWrite | bin/ed/ed.c:924-977 | Before a block is reused for output its contents reach the disk; the coherent file does not change. |
| EdLines.Lines.Move | bin/ed/ed.c:1220-1261 | Three reversals in place move the addressed lines behind the target and keep the order within and outside them; an error exactly if the target is among them; the dot lands on the last line moved. |
| EdLines.MovedFacts | bin/ed/ed.c:1220-1261 | The moved range stays in one piece and the lines outside keep their order. |
| EdLines.MovedBehind | bin/ed/ed.c:1220-1261 | The line before the moved range is the target. |
| EdLines.Lines.Reverse | bin/ed/ed.c:1263-1275 | Reverses a stretch of the line array and nothing else. |
| EdLines.Lines.Rdelete | bin/ed/ed.c:837-854 | Removes exactly the addressed lines. |
| EdLines.Lines.Gdelete | bin/ed/ed.c:856-875 | One pass leaves exactly the unmarked lines, in order. |
| EdLines.UnmarkedMeans | bin/ed/ed.c:856-875 | A line stays exactly if its lowest bit is clear, and the lines that stay keep their order. |
| EdLines.Lines.DeleteOneByOne | bin/ed/ed.c:1047-1062 | The loop that starts again from the top after each deletion leaves the same lines as `gdelete`. |
| EdLines.SameDot | bin/ed/ed.c:856-875 | The two ways leave the same dot if and only if not exactly one line is marked, or the dot was on the last marked line, or both lie beyond what is left; otherwise `gdelete` differs. |
| EdCrypt.Crinit | bin/ed/ed.c:1730-1790 | For every 13 key bytes the loops terminate and build a permutation, its inverse and an involution without fixed points, which are those that the seeds of the key name; the probe always finds a free slot. |
| EdCrypt.SeedMeans | bin/ed/ed.c:1765-1767 | The seed is a polynomial in the key bytes, wrapped once at the end. |
| EdCrypt.SeedAtMeans | bin/ed/ed.c:1772-1773 | So is the seed of each step: the first one times a power of 5, and each byte used since times the power of 5 for the steps after it. |
| EdCrypt.RandomMeans | bin/ed/ed.c:1774 | What is drawn from a seed is its remainder with its sign, as an unsigned number. |
| EdCrypt.FirstMeans | bin/ed/ed.c:1770-1780 | Each step swaps the entry counted down to with the one at or below it that the seed names. |
| EdCrypt.ProbedMeans | bin/ed/ed.c:1781-1786 | A partner is the first byte without one, going round from the one that the seed names. |
| EdCrypt.CryptMeans | bin/ed/ed.c:1670-1697 | A byte and its code, sent through the first table with both rotors at their places, are partners in the third table. |
| EdCrypt.Crblock | bin/ed/ed.c:1670-1697 | In place, encrypts each byte according to its offset and nothing else. |
| EdCrypt.CryptTwice | bin/ed/ed.c:1670-1697 | Encrypting twice at the same offset is the identity. |
| EdCrypt.CryptPieces | bin/ed/ed.c:1670-1697 | Encrypting in pieces at running offsets equals encrypting at once. |
| EdCrypt.NeverItself | bin/ed/ed.c:1670-1697 | No byte is ever encrypted as itself. |
| ShStorage.Storage.Alloc | bin/sh/blok.c:31-54 | Always returns a block of at least the size asked for, apart from every busy block and from the stack if that has just been covered; the busy blocks are the old ones, perhaps the covered stack, and the new one; no byte of a busy block or of the covered stack changes; a NUL-free item on a non-empty stack keeps its bytes. |
| ShStorage.Storage.Search | bin/sh/blok.c:36-51 | At most two rounds of the circle; merging free neighbours changes no busy block, although the search pointer's own block may be swallowed; right after growth the first probe succeeds. |
| ShStorage.Storage.AddBlok | bin/sh/blok.c:56-79 | A non-empty stack becomes a busy block chained to the covered ones, the new free block is larger than asked for, and the item moves above the arena up to its first NUL; nothing below changes. |
| ShStorage.MaskOffEnough | bin/sh/blok.c:70 | Masking with an increment that need not be a power of two still leaves more than was asked for, in whole words. |
| ShStorage.Storage.Free | bin/sh/blok.c:81-89 | Removes exactly one block from the busy ones, or nothing for a pointer above the arena. |
| ShStorage.BusyApart | bin/sh/blok.c:31-54 | Busy blocks lie in the arena and never overlap. |
| ShStorage.Storage.Tdystak | bin/sh/stak.c:62-72 | Gives back exactly the covered stack blocks above its argument, and puts the next item at the argument or at the base. |
| ShStorage.Storage.Endstak | bin/sh/stak.c:53-60 | Closes the item with a NUL without changing it and starts the next one on a word boundary above it. |
| ShStorage.Storage.Getstak | bin/sh/stak.c:22-32 | Reserves at least the size asked for. |
| CshMalloc.Bucket | bin/csh/alloc.c:128-146 | The loop on wrapping 32-bit arithmetic finds the first bucket that can hold the request, on both sides of the page size, and fails exactly if none can. |
| CshMalloc.Malloc.Alloc | bin/csh/alloc.c:94-171 | Returns a block that was not in use, with room for the request, or zero; every block and every byte in it stays as it was; the free lists and the counters `nmalloc` stay exact. |
| CshMalloc.Malloc.Morecore | bin/csh/alloc.c:176-215 | New memory becomes blocks apart from all others; no block, live or free, changes. |
| CshMalloc.Malloc.Free | bin/csh/alloc.c:217-245 | Exactly this block is no longer in use; freeing it again changes nothing; no byte behind a header changes. |
| CshMalloc.Malloc.Realloc | bin/csh/alloc.c:260-323 | A live block keeps its first min(new, old) bytes, in place or moved, although it is freed before it is copied; a block that is free already gives its bytes back if it heads its free list, and otherwise nothing is copied; every other byte of every block stays. |
| CshMalloc.Malloc.Findbucket | bin/csh/alloc.c:333-350 | Finds the free list that holds a block among as many of its first elements as asked for, or says that none does. |
| CshMalloc.Malloc.FirstOnly | bin/csh/alloc.c:290-293 | Searching one element finds a block if and only if it heads the free list of its bucket. |
| CshMalloc.HeaderStore | bin/csh/alloc.c:157-160 | In the one memory that holds headers and callers' bytes, a store into a header changes no other header and no caller's byte. |
| CshMalloc.Malloc.BlocksApart | bin/csh/alloc.c:94-171 | Different blocks never overlap. |
| ShExec.Shell.TopLevel | bin/sh/xec.c:27-423 | For every command whose breaks fit a `char`, the globals refine structured semantics; afterwards `loopcnt` is zero, and the flags are clear if and only if the command ended normally, as it does if every `break` stays within its loops. |
| ShExec.Shell.Lines | bin/sh/main.c:146-178 | Line after line: the first one that leaves more loops than there are is the last one that has any effect. |
| ShExec.LineIgnored | bin/sh/main.c:146-178 | After `break 2` in a single loop the next line is ignored. |
| ShExec.Shell.Execute | bin/sh/xec.c:320-396 | At any depth the three counters spell exactly the structured outcome; with a flag set nothing happens; `loopcnt` comes back to its entry value. |
| ShExec.ListsMean | bin/sh/xec.c:320-335 | `&&` runs its right side exactly if the left one has succeeded, `\|\|` exactly if it has failed, `;` always; otherwise the state stays that of the left side. |
| ShExec.ListsLeave | bin/sh/xec.c:320-335 | After a `break`, `continue` or `exit` on the left the right side is not run. |
| ShExec.IfMeans | bin/sh/xec.c:383-396 | `if` takes the first arm exactly if the condition has succeeded; `-e` is off for the condition alone. |
| ShExec.LoopMeans | bin/sh/xec.c:364-381 | `while` goes on exactly if the condition has succeeded, `until` exactly if it has failed. |
| ShExec.ForMeans | bin/sh/xec.c:337-361 | `for` assigns its words in order and runs the body after each. |
| ShExec.SinglesMean | bin/sh/xec.c:60-160 | What a command, `exit`, and `break` or `continue` outside loops leave behind; with `-e` a failing command ends the shell. |
| ShExec.Shell.ExecuteBreak | bin/sh/xec.c:102-105 | At depth d > 0 `break` works if and only if 1 <= d mod 256 <= 127; from 128 to 255 it acts like `continue`, and at multiples of 256 it does nothing. |
| ShExec.Shell.ExecuteContinue | bin/sh/xec.c:98-99 | At depth d > 0 `continue` works if and only if 1 <= d mod 256 <= 128; otherwise it acts like `break` or does nothing. |
| ShExec.Shell.EndLoop | bin/sh/xec.c:355-381 | The rest of a `break n` goes on beyond the end of a loop if and only if 1 <= (n - 1) mod 256 <= 127. |
| ShExec.BreakLevels | bin/sh/xec.c:355-381 | Every loop end on its way passes a `break n` on if and only if n is at most 128. |
| ShExec.FitsSmall | bin/sh/xec.c:102-105 | Up to 127 nested loops all breaks and continues fit a `char`. |
| ShExec.BreakLeaves | bin/sh/xec.c:337-381 | `break n` inside any stack of loops leaves exactly n of them and nothing more of their bodies, words and conditions takes effect. |
| ShExec.ContinueRestarts | bin/sh/xec.c:337-381 | `continue` skips the rest of the body and goes on with the next round. |
| ShExec.ContinueInCondition | bin/sh/xec.c:364-381 | A `continue` in a condition restarts a `while`, but ends an `until`. |
| ShExec.FitsSem | bin/sh/xec.c:27-423 | Whatever happens, no command leaves more loops than there are around it. |
| CshExp.Evaluator.Exp | bin/csh/sh.exp.c:41-61 | The one pass over the words equals reading them with the grammar and evaluating the tree: same value or error, same globbing, commands and tests in the same order, cursor at the end of the tree. |
| CshValue.Calculate | bin/csh/sh.exp.c:41-486 | The pass gives the value that the lemmas below tell of, or fails if the words are no expression. |
| CshValue.SumMeans | bin/csh/sh.exp.c:269-347 | On the words of `a + b`, `a - b` and `a * b` it gives the sum, difference and product on 32 bits. |
| CshValue.DivisionMeans | bin/csh/sh.exp.c:304-347 | On the words of `a / b` and `a % b` it gives quotient and remainder with a == b * q + r, the remainder smaller than the divisor and with the sign of the dividend; dividing by zero is an error. |
| CshValue.RelationMeans | bin/csh/sh.exp.c:196-238 | `<`, `<=`, `>` and `>=` give 1 exactly if the numbers are so related. |
| CshValue.EqualityMeans | bin/csh/sh.exp.c:150-194 | `==` and `!=` of numbers tell whether they are the same. |
| CshValue.WordsMean | bin/csh/sh.exp.c:150-194 | Words are globbed and their texts compared; the right side of `=~` and `!~` is a pattern and is not globbed. |
| CshValue.LogicMeans | bin/csh/sh.exp.c:41-82 | `\|\|` and `&&` of numbers. |
| CshValue.UnaryMeans | bin/csh/sh.exp.c:357-376 | `!` tells whether a number is zero, and a number and its `~` add up to -1. |
| CshValue.BitMeans | bin/csh/sh.exp.c:84-148 | Each of the 32 bits of `a \| b`, `a ^ b` and `a & b` is what it should be. |
| CshValue.OtherMeans | bin/csh/sh.exp.c:240-486 | Which shift, exit status and file test is asked for, and what parentheses do. |
| CshValue.EgetnMeans | bin/csh/sh.exp.c:564-571 | Which texts are numbers, which number they are, and which error the others give. |
| CshExp.SkippedI | bin/csh/sh.exp.c:41-82 | In a skipped operand no command runs, no file is tested and nothing is divided; only words may be globbed. |
| CshExp.ShortCircuitI | bin/csh/sh.exp.c:41-82 | Against an evaluator that does not look at operands that do not matter: same value and effects, and a value exactly if the other has one and every skipped operand can be globbed and holds numbers where numbers are read. |
| CshExp.SkippedWordMatters | bin/csh/sh.exp.c:41-61 | `1 \|\| a` fails, although its second operand does not matter. |
| CshExp.ShowParses | bin/csh/sh.exp.c:41-486 | Every tree written down with no more parentheses than its layers need is read back as itself, so each operator groups to the right. |
| CshExp.PutGet | bin/csh/sh.exp.c:564-571 | What `putn` writes `egetn` reads back, for every 32-bit number. |
| CshBrace.ExpansionMeans | bin/csh/sh.glob.c:213-288 | A word with nested braces expands to the full cross product of its alternatives, in order. |
| CshBrace.Globber.Expand | bin/csh/sh.glob.c:125-175 | Appends exactly the expansion, each word behind what has been collected, and fails exactly if a brace is not closed. |
| CshBrace.Globber.ExecBrc | bin/csh/sh.glob.c:213-288 | Replaces the leftmost brace by each alternative in turn, collects all their expansions in order, and puts the collected path back. |
| CshMatch.GmatchAgrees | bin/csh/sh.glob.c:391-445 | On every text `Gmatch` gives the declarative meaning of `*`, `?` and ascending classes, except that a pattern that ends in two stars asks for one more character. |
| CshMatch.GmatchExact | bin/csh/sh.glob.c:391-445 | It agrees with the declarative meaning on all texts if and only if the pattern does not end in two stars or contains an empty class, so that it matches nothing. |
| CshMatch.TwoStarsAtEnd | bin/csh/sh.glob.c:400-409 | `a**` does not match `a`. |
| Dd.Converter.Convert | bin/dd/dd.c:599-626 | For every input the bytes written are exactly those of the conversion, whatever the output size; all records but the last are full, and the counters are exact. |
| Dd.Converter.Block | bin/dd/dd.c:599-626 | One character through `block`: what comes out, the column and `ntrunc`. |
| Dd.Converter.Unblock | bin/dd/dd.c:514-539 | One character through `unblock`: blanks are held back until something follows them. |
| Dd.Converter.Null | bin/dd/dd.c:476-485 | One character goes out, full buffers are flushed. |
| Dd.BlockLines | bin/dd/dd.c:599-626 | `block` turns every line into one record of exactly `cbs` bytes, and `ntrunc` counts the lines longer than that. |
| Dd.UnblockRecords | bin/dd/dd.c:514-539 | `unblock` turns every record into a line without trailing blanks. |
| Dd.CaseMeans | bin/dd/dd.c:464-474 | The conversions of case exchange the two alphabets letter by letter and leave all other characters alone. |
| Dd.Unblocked | bin/dd/dd.c:514-626 | Without a record length characters pass one by one. |
| Dd.RoundTrip | bin/dd/dd.c:514-626 | `unblock` after `block` gives back each line cut to `cbs` characters and without trailing blanks. |
| CshJobs.Run | bin/csh/sh.proc.c:31-400 | Every run of starts, reports, flushes, notices and sweeps keeps the table in order: each job is one ring with exactly one leader, jobs not flushed have different indices up to `pmaxindex`, every process is in exactly one state, and the current and the previous job are different jobs that still exist. |
| CshJobs.JobTable.Palloc | bin/csh/sh.proc.c:338-400 | A process joins the ring of the job that is being started, or leads a new job, whose index is the largest one plus one while that is below 9, and otherwise the smallest free one; no other process changes, and the current and the previous job are set only if there is none. |
| CshJobs.JobTable.Pchild | bin/csh/sh.proc.c:31-133 | A report changes the state of exactly the process with that number; if nothing of its job runs and nothing had been reported as stopped, a stopped job becomes the current one and the current one the previous, and an ended job gives way to the most recent others and is flushed if notification is asked for, or else counted for a later notice if it is in the background; in all other cases, and for an unknown number, the pointers stay. All flags of its job are those of `FinalFlags`. |
| CshJobs.FlagsMean | bin/csh/sh.proc.c:50-128 | What becomes of each flag: the foreground flag leaves the process reported, a core is noted, a stop counts as reported once the job has settled, and the leader is marked for a later notice exactly if the job has settled in the background and nobody asked to be told at once. |
| CshJobs.StatesMean | bin/csh/sh.proc.c:50-75 | The process reported is in the one state that the report tells; all others stay in theirs. |
| CshJobs.TimesMean | bin/csh/sh.proc.c:76-92 | Which processes are to have their times printed, and which timed ones are dealt with. |
| CshJobs.FirstFlags | bin/csh/sh.proc.c:346-357 | A new process runs, in the foreground unless it is in the background, and it is known whether it is timed and pipes its outputs on. |
| CshJobs.JobTable.Pflush | bin/csh/sh.proc.c:281-308 | Flushes exactly the processes of one ring, clears the pointers to its leader, and makes `pmaxindex` the largest index that is left. |
| CshJobs.JobTable.Pclrcurr | bin/csh/sh.proc.c:314-328 | The current and the previous job become the most recent ones besides the one given. |
| CshJobs.ClearedFacts | bin/csh/sh.proc.c:314-328 | Afterwards both pointers are at different jobs, neither at the one given, and the current one is null only if no other job is left. |
| CshJobs.ClearedMeans | bin/csh/sh.proc.c:314-328 | The previous job becomes current if the current one goes, whatever is vacant goes to the preferred of the other jobs, and the rest stays. |
| CshJobs.JobTable.Pgetcurr | bin/csh/sh.proc.c:970-985 | Finds the first stopped job in the list besides the two given, or else the first job, or null. |
| CshJobs.MostRecentMeans | bin/csh/sh.proc.c:970-985 | The job found is stopped and no stopped one stands before it, or no other is stopped and none stands before it; null means that there is no other job. |
| CshJobs.JobTable.Sweep | bin/csh/sh.proc.c:158-179 | Takes exactly the flushed processes out of the list and keeps the order of the others. |
| CshJobs.SweepFacts | bin/csh/sh.proc.c:158-179 | What the sweep leaves is still a table in order: no ring loses a part. |
| CshJobs.JobTable.Pstart | bin/csh/sh.proc.c:875-904 | Every process of the job that has not ended runs, in the foreground or not, and no other changes. |
| CshJobs.JobTable.Pflushall | bin/csh/sh.proc.c:267-274 | Afterwards nothing is left to report on. |
| CshJobs.JobTable.Pfind | bin/csh/sh.proc.c:917-964 | Finds the one job with an index, if there is one. |
| CshParse.Parser.Parse | bin/csh/sh.c:789-796 | For every list of words: the tree that comes back without an error is the one and only tree that the grammar has for it; if the grammar has none, an error is flagged; and what the alias pass lets through is parsed to an end. |
| CshGrammar.ParserCorrect | bin/csh/sh.parse.c:169-599 | The parsing functions find a tree without an error exactly if it is a tree of the grammar (list, `\|\|`, `&&`, pipe, simple command or subshell, with redirections only where their place allows them), and only with an error flagged do they stray out of the words. |
| CshGrammar.OneTree | bin/csh/sh.parse.c:169-599 | The grammar is not ambiguous. |
| CshGrammar.Complete | bin/csh/sh.parse.c:169-599 | Each function finds every tree of its layer, and flags no error. |
| CshGrammar.WordsKept | bin/csh/sh.parse.c:429-599 | Reading the line from left to right, every word is the next argument of the tree, or a file that one of its redirections reads or writes, or begins like an operator or a parenthesis or is a `!` behind a `>`; nothing is left over. |
| CshGrammar.AliasedEnds | bin/csh/sh.parse.c:41-92 | If the alias pass finds no parenthesis closed too many, the parser ends. |
| CshGrammar.GoesAstray | bin/csh/sh.parse.c:488-590 | On `> ) ( ( a )` alone it would not: the first `)` is taken for the name of a file, and the first `(` behind it is never closed. |
| CshGrammar.ParsesFacts | bin/csh/sh.parse.c:169-417 | In every tree of a layer parentheses match, and no operator of an outer layer stands outside them. |
| CshSyntax.AmpFacts | bin/csh/sh.parse.c:191-248 | `syn0` flags an error before an `&` if and only if a parenthesis is closed there that is not open. |
| CshParse.Parser.Syn0 | bin/csh/sh.parse.c:189-249 | The loop with its counter finds the first `&` outside parentheses that does not belong to a `>` or `\|`, and a list before it goes into a subshell in the background; first error and tree are those of the specification. |
| CshMeaning.AmpersandMeans | bin/csh/sh.parse.c:189-249 | What stands before the first such `&` gets the background flags and stays as it is otherwise; a list, `&&` or `\|\|` goes into a subshell with just these flags. |
| CshMeaning.SpecialMeans | bin/csh/sh.parse.c:440-461 | Which commands take parentheses for arguments. |
| CshMeaning.OrMeans | bin/csh/sh.parse.c:296-327 | `a \|\| b`, from its words on. |
| CshMeaning.AndMeans | bin/csh/sh.parse.c:335-367 | `a && b` |
| CshMeaning.PipeMeans | bin/csh/sh.parse.c:376-417 | `a \| b` |
| CshMeaning.PipeBothMeans | bin/csh/sh.parse.c:376-417 | `a \|& b` |
| CshMeaning.SemicolonMeans | bin/csh/sh.parse.c:255-289 | `a ; b`, and with a newline between the two. |
| CshMeaning.BackMeans | bin/csh/sh.parse.c:189-249 | `a & b` puts the first command into the background. |
| CshMeaning.ParenthesesMean | bin/csh/sh.parse.c:586-596 | `( a )` is a subshell, whose last command knows that it is one. |
| CshMeaning.InputMeans | bin/csh/sh.parse.c:553-572 | `a < b` and `a << b` |
| CshMeaning.OutputMeans | bin/csh/sh.parse.c:523-551 | `a > b`, `a >> b`, `a > & b` and `a > ! b`: the file and the flags. |
| CshMeaning.SeparatorsMean | bin/csh/sh.parse.c:169-187 | Where the alias pass starts a new command. |
| CshMeaning.LastMeans | bin/csh/sh.parse.c:189-289 | A list `a ;` holds `a` as its second part, `a &` the command in the background as its first, and neither holds another. |
| CshMeaning.ErrorsMean | bin/csh/sh.parse.c:429-599 | Parentheses that do not match, a redirection without a name and one without a command, each with its message. |
| CshParse.Parser.Syn3 | bin/csh/sh.parse.c:429-599 | The two loops over a simple command: the first error, the arguments, files and flags are those of the specification, and no store goes beyond what the first loop has counted. |
| CshParse.CountStep | bin/csh/sh.parse.c:462-498 | No step of the second loop stores more words than the first loop has counted for it. |
| Tar.RoundTrip | bin/tar/tar.c:445-773 | Names of files archived with any record length and read back, in order: the first name of each file with exactly its bytes, and every further one as a link to the first. |
| Tar.Writer.PutRegular | bin/tar/tar.c:625-654 | Adds one header and exactly as many blocks as the size in it calls for, whatever the reads return; if they are full, the blocks agree with the file as far as both go, also if it grows or shrinks meanwhile. |
| Tar.Writer.PutFile | bin/tar/tar.c:576-654 | A further name of a file remembered adds a header alone, whose link is the name that the bytes of the same inode are stored under; otherwise a member with the bytes, and a file with several names is remembered; an unreadable file or a name too long adds nothing. |
| Tar.Writer.Writetbuf | bin/tar/tar.c:1202-1246 | The tape and the buffer together grow by exactly the blocks given, through the buffer or past it; every record is full; the hint is what fills the buffer. |
| Tar.Writer.Finish | bin/tar/tar.c:390-392 | The archive ends with two empty blocks, and all of it is on the tape. |
| Tar.Reader.Readtbuf | bin/tar/tar.c:1172-1200 | The next blocks, at least one and no more than asked for, are taken off what is left in the buffer and on the tape. |
| Tar.Reader.Passtape | bin/tar/tar.c:445-458 | Passes exactly the blocks that belong to a header, none for a link. |
| Tar.Reader.Extract | bin/tar/tar.c:751-773 | Passes exactly the blocks that belong to a header and puts out the first bytes of them, as many as its size says. |
| Tar.Doxtract | bin/tar/tar.c:663-777 | On every archive each header is found at its place and exactly what is wanted is extracted. |

## Left out

- EdRegex.Regex.Execute: does not cover programs with back-references, whose starred form need not terminate; `Compile` covers them.
- EdRegex.Regex.Find: requires a pattern without back-references, for the same reason.
- EdSyntax.ShowMeans: one spelling of each pattern, with escapes wherever they are possible and classes written out; `Compile` covers every text.
- EdPattern.PreferCorrect: speaks of the specification of the matcher; that `advance` computes it is `EdRegex.Regex.Advance`.
- ShExec.Shell.Execute: `fuel` bounds the rounds of each `while` and `until`; that a run which ends does not depend on it is `ShExec.MoreFuel`.
- ShExec.Shell.TopLevel: breaks whose depth or level does not fit a `char` are excluded, but see `ShExec.Shell.ExecuteBreak`; pipes, `case`, subshells, redirection and traps are not modelled.
- ShStorage.Storage.AddBlok: with an empty stack the string found above it is a parameter, and it ends before its copy begins, as the copy would have no end otherwise.
- ShStorage.Storage.Alloc: memory behind the arena is always there; growth by memory faults is not modelled.
- CshMalloc.Malloc.Realloc: only for addresses that `malloc` has given out; range checks and the first-call alignment of the break are not modelled.
- CshMalloc.Malloc.Alloc: addresses and sizes have 32 bits and the break stays below a limit that the system sets.
- CshBrace.ExpansionMeans: words with unquoted `*`, `?`, `[`, `~` or backquotes are excluded, as they are matched against directories or users, or run commands.
- CshMatch.GmatchAgrees: class ranges ascend; the bound of a descending range is read as a member.
- CshExp.Evaluator.Exp: shifts are a parameter, and the words have been read and globbed beforehand where the shell does so.
- EdTemp.Temp.Run: reads and writes of the disk do not fail, and a text has fewer than 65536 units.
- EdLines.Lines.DeleteOneByOne: for the command `d` without addresses; the array has one slot to spare, as `rdelete` copies once too often at the end.
- EdCrypt.Crinit: starts from the 13 bytes that the key program returns.
- Dd.Converter.Convert: reads, seeks and the tables for EBCDIC are not modelled.
- CshJobs.JobTable.Palloc: process numbers that the system gives out are not in the table, and indices are unbounded; `psavejob`, `prestjob`, printing, times and the counts of directories are not modelled.
- CshJobs.JobTable.Pchild: the system reports only processes that have not ended.
- CshParse.Parser.Parse: what a parse does after it has strayed out of its words is not modelled; the alias pass is modelled only for words without aliases, and trees are not freed.
- CshParse.Parser.Syn3: words contain no NUL.
- CshGrammar.WordsKept: does not say which words that begin like an operator or a parenthesis are arguments, as the parentheses of `if` are; `CshGrammar.ParserCorrect` does.
- CshGrammar.AliasedEnds: the other half is not stated, as an error ends most parses of words that the alias pass rejects.
- Tar.Writer.PutRegular: writes to the tape do not fail; headers are values, so their octal text and checksum are not modelled.
- Tar.Reader.Readtbuf: all records have the length of the buffer; finding that length out, and what happens behind the end of the tape, is not modelled.
- Tar.Doxtract: files are created without errors.
- Back-references, substitution, `global` beyond `d`, and command reading in `ed`.
- Sizes that do not fit 32 bits.
