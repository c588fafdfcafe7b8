# uCore: allocators, file system, scheduling, synchronisation and configuration

A Dafny model of the algorithms of the teaching kernel uCore (`lab9`) and of the Kconfig front end
that configures uCore+, with proofs about them. Hardware, drivers and user programs are not modelled:
the disk is a sequence of blocks, interrupts-off regions are single steps, and a blocking call splits a
procedure into steps.

- **Configuration expressions** (`KconfigExpr`, `KconfigSame`, `KconfigOrder`, `KconfigTransform`,
  `KconfigJoin`, `KconfigDups`, `KconfigMenu`): the rewriting of three-valued dependency expressions, n < m < y, and the test that
  nests a menu entry. Expressions are values; where the original holds two pointers into one tree, the
  model holds two paths into one tree, so that a rewrite through one is seen through the other.
- **Synchronisation** (`Semaphores`, `Philosophers`, `PhilosophersSema`): hand-off semaphores, and any
  number of dining philosophers as transition systems. A step is one semaphore operation, or one test or
  update of the shared data: testing three phases and setting one, or reading and changing a counter, is one
  step. Only whoever holds the monitor or the critical section takes such steps, and that is one at a time.
- **Memory** (`Runs`, `FirstFit`, `SlobRing`, `SlobBlocks`, `Slob`, `Vmm`): first fit over a sorted, coalesced page list; the
  small-block allocator with its rotating ring of free blocks; the areas of a process image.
- **File system** (`Bitmap`, `SfsVolume`, `SfsBytes`, `SfsBudget`, `SfsFile`): free map, direct and indirect block
  pointers, and unaligned reads, writes and changes of size, down to the bytes of the entries in an
  indirect block. `SfsVolume.Sound` records an owner for every block in use that is not reserved, so
  that it says both that no block is shared and that none is lost; `SfsBudget` says what growth costs.
- **Scheduling** (`SkewHeap`, `Stride`, `Timers`): a skew heap of objects with parent pointers, stride
  scheduling with 32-bit strides, and the timer list that stores differences.
- **Processes** (`Pids`, `ProcTree`, `ProcTable`): process numbers, and the parent, child and sibling
  links under fork, exit and wait.
- **Text** (`ConfString`, `ConfFile`, `Numbers`): string settings, whole configuration files and numbers,
  written and read back. Strings are C strings: the zero character does not occur in them.
- **Shared** (`Options`, `Words`, `Sums`): optional values, 32-bit numbers, sums.

Where a promised property does not hold of the code, the code is kept, and members say exactly when it holds
and, after the semicolon, show an input at which it fails:

- All orders and groupings of the operands of an operation are found equal if and only if a deciding constant is
  among them or the equality test is symmetric and transitive on those that count, as it is where no constant
  stands inside an operand (`KconfigOrder.AnyOrderExact`, `TameAnyOrder`; `OrderMatters`).
- Rewriting `A != n` to `A` keeps all values if and only if no rewritten symbol is m
  (`KconfigTransform.TransBoolExact`, and `TransBoolUnderNot` for the test against n; `TransBoolRaises`).
- Rewriting an expression to a comparison is right everywhere in it if and only if the text of each operand
  tells its value and no negated part is m (`KconfigTransform.TransCompareExact`; `NegatedMisread`, and
  `UndefinedMisread` for an undefined symbol, with which an entry can be visible under a hidden parent:
  `KconfigMenu.HiddenParent`).
- A detected contradiction decides the operation if and only if the first side is not m or the second decides
  alone (`KconfigDups.ContradictsCalc`; `ContradictionCanBeM`).
- The small-block allocator's ring survives a request if and only if it is cut from one of several free blocks
  (`Slob.Allocator.Alloc`; `ArenaHandedOut`, `SentinelGone`, `SentinelGoneAt1000`, `AloneFreed`), and a return if
  and only if it does not touch the only free block from below (`Slob.Allocator.Free`, `SlobBlocks.ReturnKept`;
  `SlobRing.ReturnTangles`). The sentinel sees to both; it survives a request if and only if that is for more than
  one unit or the next block is another one (`SlobBlocks.SentinelAfter`, `Slob.Allocator.Alloc`).
- A write keeps the size within the blocks if and only if it begins there or a block can be added
  (`SfsFile.FileSystem.Write`, `SfsBudget.WriteCosts`; `SizeWithoutBlocks`).
- A change of size keeps blocks = ceil(size / 4096) if and only if there are blocks for all of it or for none
  (`SfsFile.FileSystem.Truncate`; `BlocksWithoutSize`, after which the kernel's own assertion fails).
- A setting is read back if and only if its line fits (`ConfString.RoundTrip`, `ConfFile.FileRoundTrip`;
  `OverlongLost`, `BreakSetsOther`).
- A region handed to the page allocator keeps the list in order if and only if it lies beyond all others
  (`FirstFit.PageAllocator.InitMemmap`, `Runs.AppendCanonical`; `TouchingRegions`).

The comment above `find_vma` gives the range as closed; the code treats the end as excluded, and so does
the model. The comment on joining a!=m with a!=n says a=m (expr.c:489); the code makes it a=y, and so does the model.

## Model

| member | source | states |
|---|---|---|
| `KconfigExpr.EliminateYnCalc` | ucore_plus/ucore/package/config/expr.c:236-317 | removing constants keeps the three-valued value under every valuation |
| `KconfigExpr.EliminateYnShrinks` | ucore_plus/ucore/package/config/expr.c:236-317 | no constant is left under an operation; the tree shrinks exactly when there was one and is otherwise unchanged |
| `KconfigExpr.EliminateOperandsCommon` | ucore_plus/ucore/package/config/expr.c:135-167 | what is taken out of both sides is one common operand value |
| `KconfigExpr.EliminateEqReflectsOrder` | ucore_plus/ucore/package/config/expr.c:169-192 | if the reduced sides are ordered, the original ones were, in both directions, under every valuation |
| `KconfigExpr.ExprEqSound` | ucore_plus/ucore/package/config/expr.c:194-234 | expressions the equality test accepts have the same value under every three-valued valuation; the test and the elimination are mutually recursive |
| `KconfigSame.EqOfTrees` | ucore_plus/ucore/package/config/expr.c:135-234 | the test sees only the operand lists: each operand is matched with the first equal one left on the other side, and what is left is compared after constant elimination |
| `KconfigSame.Reflexive` | ucore_plus/ucore/package/config/expr.c:194-234 | every expression is found equal to itself |
| `KconfigSame.Regrouped` | ucore_plus/ucore/package/config/expr.c:135-234 | operations with the same operands in the same order are found equal however these are grouped |
| `KconfigOrder.AnyOrderExact` | ucore_plus/ucore/package/config/expr.c:135-234 | all orders and groupings of a bag of operands are found equal if and only if a deciding constant is among them or the test is symmetric and transitive on those that do not reduce to the unit |
| `KconfigOrder.OrderMatters` | ucore_plus/ucore/package/config/expr.c:135-234 | with s for a symbol and x for the disjunction of s and n, the operands s&&s, x&&s and x&&x in two orders that are not found equal |
| `KconfigOrder.TameAnyOrder` | ucore_plus/ucore/package/config/expr.c:135-234 | operands with no constant inside may stand in any order and grouping |
| `KconfigOrder.TameExact` | ucore_plus/ucore/package/config/expr.c:135-234 | where constants stand only at the top, two operations are found equal if and only if both are decided by a constant or they have the same bag of operands, themselves taken up to order and grouping |
| `KconfigOrder.PlainExact` | ucore_plus/ucore/package/config/expr.c:194-234 | where no constant stands under an operation, the test decides equality up to order and grouping, at every depth |
| `KconfigOrder.SameRest` | ucore_plus/ucore/package/config/expr.c:194-317 | of two expressions found equal, if constant elimination reduces one to a symbol, it reduces the other to the same |
| `KconfigOrder.Collapsing` | ucore_plus/ucore/package/config/expr.c:194-317 | two operations that reduce to the same symbol, other than the deciding constant, are found equal |
| `KconfigExpr.EliminateEqImplies` | ucore_plus/ucore/package/config/menu.c:281-301 | if the second side reduces to y, the first is at most the second under every valuation |
| `KconfigExpr.TwoValuedCalc` | ucore_plus/ucore/package/config/expr.c:943-982 | with no operand equal to m the value is not m |
| `KconfigTransform.PushWeight` | ucore_plus/ucore/package/config/expr.c:641-776 | the measure by which re-transforming De Morgan output terminates |
| `KconfigTransform.TransformCalc` | ucore_plus/ucore/package/config/expr.c:641-776 | pushing negations inwards keeps the value under every valuation where boolean symbols are never m |
| `KconfigTransform.TransformNormal` | ucore_plus/ucore/package/config/expr.c:641-776 | afterwards negation stands only on symbols other than y, m and n, and no boolean symbol is compared with one of them |
| `KconfigTransform.TransformFixesNormal` | ucore_plus/ucore/package/config/expr.c:641-776 | an expression is normal if and only if transforming leaves it alone |
| `KconfigTransform.TransBoolKeepsNo` | ucore_plus/ucore/package/config/expr.c:319-346 | rewriting `A != n` to `A` keeps whether the value is n, and never raises the value, where it happens only outside negations |
| `KconfigTransform.NormalRewritesOnlyPositive` | ucore_plus/ucore/package/config/expr.c:319-346 | negation-normal input is such input |
| `KconfigTransform.TransBoolUnderNot` | ucore_plus/ucore/package/config/expr.c:319-346 | under a negation it keeps whether the value is n if and only if it keeps the value of the negated expression |
| `KconfigTransform.TransBoolExact` | ucore_plus/ucore/package/config/expr.c:319-346 | it keeps the value of the expression and of every part of it if and only if no rewritten symbol is m |
| `KconfigTransform.TransBoolRaises` | ucore_plus/ucore/package/config/expr.c:319-346 | under a negation an expression that is n can become m |
| `KconfigTransform.TransCompareCalc` | ucore_plus/ucore/package/config/expr.c:882-941 | for y and n targets the result is the requested comparison wherever the text of each operand symbol is that of the target exactly when its value is, and no negated subexpression is m |
| `KconfigTransform.TransCompareExact` | ucore_plus/ucore/package/config/expr.c:882-941 | it is right for the expression and every part of it if and only if these two conditions hold |
| `KconfigTransform.LogicalTells` | ucore_plus/ucore/package/config/expr.c:882-941 | the first condition holds of boolean, tristate and constant operands under every valuation |
| `KconfigTransform.UndefinedMisread` | ucore_plus/ucore/package/config/symbol.c:287-290 | an undefined symbol is n while the comparison with n made from it says it is not |
| `KconfigTransform.TransCompareNotExact` | ucore_plus/ucore/package/config/expr.c:913-914 | at a negation it is right if and only if the negated expression is not m, where it is right below |
| `KconfigTransform.NegatedMisread` | ucore_plus/ucore/package/config/expr.c:913-914 | the negation of a symbol that is m is taken for y |
| `KconfigTransform.TransCompareTwoValued` | ucore_plus/ucore/package/config/expr.c:882-941 | the result has only comparisons as operands |
| `KconfigJoin.JoinOrCalc` | ucore_plus/ucore/package/config/expr.c:348-413 | every joining rule for OR is exact over all three values for well-typed valuations |
| `KconfigJoin.JoinAndCalc` | ucore_plus/ucore/package/config/expr.c:415-507 | every joining rule for AND is exact over all three values for well-typed valuations |
| `KconfigJoin.JoinsOrPairs` | ucore_plus/ucore/package/config/expr.c:379-403 | two comparisons of a tristate symbol with different values are joined to the comparison that leaves out the third; a boolean symbol and its negation to y |
| `KconfigJoin.JoinsAndSymbol` | ucore_plus/ucore/package/config/expr.c:444-457 | a symbol is joined with its comparisons =y, !=n and !=m, in either order |
| `KconfigJoin.JoinsAndPairs` | ucore_plus/ucore/package/config/expr.c:459-490 | = and != of a tristate symbol with any two constants are joined, in either order, to the first or to n; two different != to the third value |
| `KconfigJoin.JoinShape` | ucore_plus/ucore/package/config/expr.c:348-507 | a join is smaller than its operands together and is an operation only if it is the first operand |
| `KconfigJoin.ExtractEqFactors` | ucore_plus/ucore/package/config/expr.c:853-880 | each extraction step takes one value out of both sides and into the common part |
| `KconfigJoin.ExtractEqOpCalc` | ucore_plus/ucore/package/config/expr.c:831-880 | both sides equal the extracted part combined with what is left of them |
| `KconfigDups.Dups1` | ucore_plus/ucore/package/config/expr.c:509-559 | one pass with both pointers into one tree keeps its operand skeleton and never grows it |
| `KconfigDups.Dups1Calc` | ucore_plus/ucore/package/config/expr.c:509-559 | the first pass is exact over all three values |
| `KconfigDups.Dups1Counts` | ucore_plus/ucore/package/config/expr.c:509-559 | a counted change leaves a constant to remove; no count means no change |
| `KconfigDups.Dups1Tries` | ucore_plus/ucore/package/config/expr.c:509-559 | a pass that counted nothing has tried every pair of operands in vain |
| `KconfigDups.ContradictsCalc` | ucore_plus/ucore/package/config/expr.c:561-615 | a detected contradiction decides the operation if and only if the first expression is not m or the second decides it alone |
| `KconfigDups.ContradictionCanBeM` | ucore_plus/ucore/package/config/expr.c:561-615 | an expression taken for a contradiction that is m |
| `KconfigDups.Dups2Calc` | ucore_plus/ucore/package/config/expr.c:561-615 | the second pass keeps the value where no operand is m |
| `KconfigDups.Dups2Counts` | ucore_plus/ucore/package/config/expr.c:561-615 | a counted change leaves a constant to remove; no count means no change |
| `KconfigDups.UncountedIsSettled` | ucore_plus/ucore/package/config/expr.c:617-639 | when the first pass counts nothing, no two operands of any operation in the tree can be joined |
| `KconfigDups.EliminateDups` | ucore_plus/ucore/package/config/expr.c:617-639 | the fixpoint loop ends, keeps the value wherever no operand is m, leaves nothing joinable, so that no two operand places of any operation hold the same expression, nor the same up to order and grouping where no constant stands under an operation, and never grows the expression |
| `KconfigMenu.DependsExactly` | ucore_plus/ucore/package/config/expr.c:802-829 | a dependency names a symbol if and only if some operand of its top-level conjunction is the symbol s itself, s=y, s=m or s!=n |
| `KconfigMenu.ContainsExactly` | ucore_plus/ucore/package/config/expr.c:778-800 | an expression contains a symbol if and only if the symbol stands, or is compared, at the end of some path through it |
| `KconfigMenu.DependsSymbolSound` | ucore_plus/ucore/package/config/expr.c:802-829 | a direct dependency on a boolean or tristate symbol fails whenever the symbol is n |
| `KconfigMenu.Visible` | ucore_plus/ucore/package/config/menu.c:282-292 | the simplified visibility is y exactly where the expression is not n, else n, at every well-typed valuation where each operand's text is n exactly when its value is and no negated subexpression is m; nothing in it can be joined |
| `KconfigMenu.Nests` | ucore_plus/ucore/package/config/menu.c:286-301 | an entry is nested if and only if the symbol occurs somewhere in its dependency and either some operand of the top-level conjunction names it or the visibility covers the one above; then whenever it is visible the symbol is set, or, under the conditions of `Visible` on both expressions, the parent is visible |
| `KconfigMenu.HiddenParent` | ucore_plus/ucore/package/config/menu.c:286-301 | with an undefined symbol an entry is nested and visible while its parent is hidden |
| `Semaphores.Semaphore.Release` | lab9/kern/sync/sem.c:16-30 | adds a unit, or hands it to the longest waiting process; a positive value and a waiter never coexist |
| `Semaphores.Semaphore.Acquire` | lab9/kern/sync/sem.c:33-54 | takes a unit or queues the process last |
| `Semaphores.Semaphore.TryAcquire` | lab9/kern/sync/sem.c:67-76 | takes a unit if there is one and never queues |
| `Semaphores.ServedInOrder` | lab9/kern/sync/sem.c:16-54 | over every history units go to requests in order of arrival, the rest wait in that order, and only a surplus is stored |
| `Philosophers.NeighboursModulo` | lab9/kern/sync/check_sync.c:8-9 | the neighbours are those of the modular formulas |
| `Philosophers.StepInv` | lab9/kern/sync/check_sync.c:172-221 | every step of every philosopher keeps the invariant: the place of the monitor token, the signaller, and what each code position says |
| `Philosophers.TestStep` | lab9/kern/sync/check_sync.c:172-182 | testing a philosopher keeps the invariant |
| `Philosophers.SignalStep` | lab9/kern/sync/monitor.c:26-45 | deciding to signal keeps the invariant |
| `Philosophers.SigUpStep` | lab9/kern/sync/monitor.c:40-45 | waking the waiter passes the token to it |
| `Philosophers.SigDownStep` | lab9/kern/sync/monitor.c:40-45 | the signaller sleeps on next or gets the token back |
| `Philosophers.CwReleaseStep` | lab9/kern/sync/monitor.c:64-72 | giving the monitor away passes the token to a signaller first |
| `Philosophers.CwDownStep` | lab9/kern/sync/monitor.c:64-72 | a waiter sleeps on its condition or takes the token left there |
| `Philosophers.SafeAlways` | lab9/kern/sync/check_sync.c:172-221 | in every state of every interleaving of any n >= 2 philosophers there is one token, no two neighbours eat, whoever has taken forks eats, and while the monitor is free a hungry philosopher has an eating neighbour |
| `Philosophers.TokenUnique` | lab9/kern/sync/monitor.c:26-72 | the token is in one place only |
| `Philosophers.NeverStuck` | lab9/kern/sync/check_sync.c:172-221 | in every reachable state in which somebody is not done, somebody who is not done can step |
| `Philosophers.EveryRunEnds` | lab9/kern/sync/check_sync.c:223-242 | no schedule is longer than a fixed bound |
| `Philosophers.EveryRunFeedsAll` | lab9/kern/sync/check_sync.c:223-242 | a run that cannot go on has let everybody finish every round and come back from taking the forks exactly once for each, without any fairness assumption |
| `Philosophers.NeverFedMore` | lab9/kern/sync/check_sync.c:223-242 | in every run, at any moment, nobody has come back from taking the forks more often than there are rounds |
| `Philosophers.RunServes` | lab9/kern/sync/check_sync.c:223-242 | from any state of a run on, the meals had and the meals still owed add up to those owed before |
| `PhilosophersSema.StepInv` | lab9/kern/sync/check_sync.c:86-112 | every step of the semaphore version keeps its invariant |
| `PhilosophersSema.SafeAlways` | lab9/kern/sync/check_sync.c:86-112 | in every state of every interleaving at most one philosopher is in the critical section, no two neighbours eat, whoever has taken forks eats, and while the section is free a hungry philosopher has an eating neighbour |
| `PhilosophersSema.NeverStuck` | lab9/kern/sync/check_sync.c:86-112 | in every reachable state in which somebody is not done, somebody can step |
| `PhilosophersSema.EveryRunEnds` | lab9/kern/sync/check_sync.c:114-133 | no schedule is longer than a fixed bound |
| `PhilosophersSema.EveryRunFeedsAll` | lab9/kern/sync/check_sync.c:114-133 | a run that cannot go on has let everybody finish every round and come back from taking the forks exactly once for each, without any fairness assumption |
| `PhilosophersSema.NeverFedMore` | lab9/kern/sync/check_sync.c:114-133 | in every run, at any moment, nobody has come back from taking the forks more often than there are rounds |
| `PhilosophersSema.RunServes` | lab9/kern/sync/check_sync.c:114-133 | from any state of a run on, the meals had and the meals still owed add up to those owed before |
| `Runs.SameCoverSameRuns` | lab9/kern/mm/default_pmm.c:156-191 | the sorted list of maximal runs is determined by the set of free addresses |
| `Runs.TakeThenInsert` | lab9/kern/mm/default_pmm.c:123-191 | giving back what was just taken restores the very same runs |
| `Runs.AppendCanonical` | lab9/kern/mm/default_pmm.c:107-120 | appending a region keeps the list sorted and coalesced if and only if it starts beyond the end of every run |
| `FirstFit.PageAllocator.InitMemmap` | lab9/kern/mm/default_pmm.c:107-120 | puts the region last, counts it and clears its reserved marks; the list is again that of the maximal runs if and only if the region starts beyond the end of every run |
| `FirstFit.TouchingRegions` | lab9/kern/mm/default_pmm.c:107-120 | regions that touch are not joined, so that the list is not that of the maximal runs |
| `FirstFit.PageAllocator.AllocPages` | lab9/kern/mm/default_pmm.c:122-151 | the lowest-addressed run that fits gives up its first pages; fails only when no run fits; the list stays the list of maximal runs, the flag marks exactly run heads and the counter is the total |
| `FirstFit.PageAllocator.Coalesce` | lab9/kern/mm/default_pmm.c:153-180 | absorbs exactly the runs that touch the freed one |
| `FirstFit.PageAllocator.FreePages` | lab9/kern/mm/default_pmm.c:153-191 | the freed pages rejoin their neighbours and the list is again the list of maximal runs |
| `FirstFit.PageAllocator.AllocThenFree` | lab9/kern/mm/default_pmm.c:122-191 | freeing an allocation restores list, flags and counter |
| `SlobRing.SearchExit` | lab9/kern/mm/kmalloc.c:166-168 | the exit tests of the search hold exactly at the block before the place of the freed one |
| `SlobRing.RejoinRing` | lab9/kern/mm/kmalloc.c:170-180 | linking a block in and joining it to its neighbours gives the ring of the coalesced runs, unless it touches the only block from below |
| `SlobRing.ReturnTangles` | lab9/kern/mm/kmalloc.c:170-180 | in that case the block and the one it was joined to stay linked to each other |
| `SlobRing.TangledNoRing` | lab9/kern/mm/kmalloc.c:170-180 | and the fields are those of no ring with that block in it |
| `SlobRing.Cut` | lab9/kern/mm/kmalloc.c:123-130 | the field updates in source order, also when the block is its own predecessor |
| `SlobRing.CutRing` | lab9/kern/mm/kmalloc.c:123-130 | in a ring of several blocks, cutting a block or unlinking it gives the ring of the remaining runs |
| `SlobRing.CutOnly` | lab9/kern/mm/kmalloc.c:123-132 | the only block, cut, leads to a rest that leads to itself, and taken whole stays linked to itself |
| `SlobRing.NextFits` | lab9/kern/mm/kmalloc.c:107-115 | a request for one unit is always satisfied with the next block |
| `SlobRing.FindsNext` | lab9/kern/mm/kmalloc.c:106-132 | if what is left of a block still fits, the search that starts after the block before it finds that rest |
| `SlobRing.StrayScan` | lab9/kern/mm/kmalloc.c:107-136 | after such a cut the search ends if and only if the rest is large enough |
| `SlobRing.AloneSearch` | lab9/kern/mm/kmalloc.c:166-168 | the search for the place of a block that is still the only one linked never ends |
| `SlobBlocks.ReturnKept` | lab9/kern/mm/kmalloc.c:166-182 | returning a block keeps ring and disjointness if and only if it does not touch the only free block from below |
| `SlobBlocks.CutKept` | lab9/kern/mm/kmalloc.c:123-132 | cutting from one of several blocks keeps ring, disjointness and the count of units, whether or not it is the sentinel |
| `SlobBlocks.CutBroken` | lab9/kern/mm/kmalloc.c:123-132 | after cutting from the only block there are no free blocks of which the fields keep the ring |
| `SlobBlocks.WithSentinel` | lab9/kern/mm/kmalloc.c:76-77 | with the sentinel in the ring no return can break it, and the sentinel stays |
| `SlobBlocks.SentinelAfter` | lab9/kern/mm/kmalloc.c:76-77 | the sentinel stays in the ring, untouched by allocated blocks, if and only if the units are cut from another block, which they are if there are two or more |
| `Slob.Allocator.FindPlace` | lab9/kern/mm/kmalloc.c:166-168 | the rotating search ends at the block before the place |
| `Slob.Allocator.Scan` | lab9/kern/mm/kmalloc.c:107-136 | one walk round the ring, from the block after the last one used, finds the first block that fits or shows there is none |
| `Slob.Allocator.AddPage` | lab9/kern/mm/kmalloc.c:142-148 | a new page becomes free space, joined to its neighbours; everything is kept if and only if it does not touch the only free block from below |
| `Slob.Allocator.Alloc` | lab9/kern/mm/kmalloc.c:98-151 | from one of several free blocks, the block is the first that fits in ring order after the one last used, or after the one before the new page, and the search next starts from the block before it; nothing else changes, and it fails exactly when no block fits and no page is given; ring, disjointness and count of units are kept if and only if it is cut from one of several free blocks; the sentinel stays if and only if it is not what was taken |
| `Slob.Allocator.Free` | lab9/kern/mm/kmalloc.c:153-185 | the freed units become free, and the search next starts from the free block before them; ring, disjointness and count of units are kept if and only if the block does not touch the only free block from below; the sentinel stays |
| `Slob.Allocator.Kmalloc` | lab9/kern/mm/kmalloc.c:223-232 | as the block allocator, the same block of the ring found, with a one-unit header in front; a request for nothing is a request for one unit |
| `Slob.Allocator.KmallocTwice` | lab9/kern/mm/kmalloc.c:106-132 | of two equal requests, one right after the other, the second gets the units that follow those of the first, if the block that these are cut from has enough for both |
| `Slob.Allocator.Kfree` | lab9/kern/mm/kmalloc.c:282-284 | frees the block with its header, and leaves the free block before it as the one last used |
| `Slob.Allocator.KmallocThenKfree` | lab9/kern/mm/kmalloc.c:223-285 | an allocation from one of several free blocks, the sentinel included, freed again leaves the same free blocks, or, if a page was brought in, those with the page put in its place and joined to its neighbours |
| `Slob.AloneFreed` | lab9/kern/mm/kmalloc.c:223-285 | from a ring of one block it does not: freed whole, the search never ends; freed in part, the fields are those of no ring |
| `Slob.ArenaHandedOut` | lab9/kern/mm/kmalloc.c:123-132 | the first ring, of the sentinel alone, gives the sentinel away and keeps it linked, and freeing it never ends |
| `Slob.AloneCut` | lab9/kern/mm/kmalloc.c:107-132 | after a cut from the only block a search for more than the rest never ends, and a request for less leaves its block linked |
| `Slob.SentinelGone` | lab9/kern/mm/kmalloc.c:107-132 | a request for nothing that gets the sentinel from a ring of two leaves everything kept, and the next request breaks it |
| `Slob.SentinelGoneAt1000` | lab9/kern/mm/kmalloc.c:107-132 | the same with a page at 1000: requests for nothing and for eight bytes, then for 511 units or for ten |
| `Bitmap.Map.constructor` | lab9/kern/fs/sfs/bitmap.c:19-50 | all bits are free, and the bits after the last one are not |
| `Bitmap.Map.Alloc` | lab9/kern/fs/sfs/bitmap.c:53-71 | takes the lowest free bit and changes no other; fails only when none is free |
| `Bitmap.Map.Test` | lab9/kern/fs/sfs/bitmap.c:83-88 | tells whether the bit is free |
| `Bitmap.Map.Free` | lab9/kern/fs/sfs/bitmap.c:91-97 | frees the bit and changes no other |
| `SfsVolume.EntryPut` | lab9/kern/fs/sfs/sfs_inode.c:225-231 | an entry of an indirect block reads back what was put there, the others are undisturbed |
| `SfsVolume.NoSharing` | lab9/kern/fs/sfs/sfs_inode.c:201-292 | distinct places of files have distinct blocks in use, none an indirect block and none marked free |
| `SfsVolume.DataWritten` | lab9/kern/fs/sfs/sfs_io.c:104-118 | writing into one block splices the bytes of that file and changes no other file |
| `SfsVolume.AddDirect` | lab9/kern/fs/sfs/sfs_inode.c:262-270 | a new direct block keeps the volume sound and appends a cleared block to that file alone |
| `SfsVolume.AddIndirect` | lab9/kern/fs/sfs/sfs_inode.c:215-223 | a new indirect block keeps the volume sound and changes no file |
| `SfsVolume.AddEntry` | lab9/kern/fs/sfs/sfs_inode.c:225-238 | a new entry keeps the volume sound and appends a cleared block to that file alone |
| `SfsVolume.DropDirect` | lab9/kern/fs/sfs/sfs_inode.c:323-331 | dropping the last direct block keeps the volume sound and cuts that file alone |
| `SfsVolume.DropEntry` | lab9/kern/fs/sfs/sfs_inode.c:298-313 | dropping the last entry keeps the volume sound and cuts that file alone |
| `SfsFile.FileSystem.BlockAlloc` | lab9/kern/fs/sfs/sfs_inode.c:89-100 | the lowest free block is marked in use and cleared; unused_blocks stays the number of set bits |
| `SfsFile.FileSystem.BlockFree` | lab9/kern/fs/sfs/sfs_inode.c:105-109 | the block is marked free; unused_blocks stays the number of set bits |
| `SfsFile.FileSystem.ExtendDirect` | lab9/kern/fs/sfs/sfs_inode.c:262-270 | adds a block, or fails exactly when none is free and then changes no file |
| `SfsFile.FileSystem.ExtendIndirect` | lab9/kern/fs/sfs/sfs_inode.c:201-245 | adds a block and, if needed, an indirect block; fails exactly when there are too few and then gives the indirect block back |
| `SfsFile.FileSystem.Load` | lab9/kern/fs/sfs/sfs_inode.c:354-371 | finds a block of the file, or appends a cleared one and takes exactly the blocks that costs; fails exactly when there are fewer; no block is leaked or shared |
| `SfsFile.FileSystem.DropLast` | lab9/kern/fs/sfs/sfs_inode.c:376-387 | frees the last block, counts it and cuts the file |
| `SfsBudget.WriteCosts` | lab9/kern/fs/sfs/sfs_inode.c:589-642 | a write falls short if and only if there were fewer blocks than it needs, and keeps the size within the blocks if and only if it begins there or a block could be added |
| `SfsFile.FileSystem.Write` | lab9/kern/fs/sfs/sfs_inode.c:553-644 | rejects exactly the bad ranges; otherwise stores the reported prefix at the offset and nothing else; falls short, and lets the size pass the blocks, exactly as `SfsBudget.WriteCosts` says of the blocks unused before |
| `SfsFile.FileSystem.WriteBlocks` | lab9/kern/fs/sfs/sfs_inode.c:589-636 | the three phases store a prefix of the data and take the blocks that costs; all of it unless the next block could not be had |
| `SfsFile.FileSystem.Read` | lab9/kern/fs/sfs/sfs_inode.c:553-644 | returns the part of the content in the range, clipped at the size; changes nothing unless the size, and the range, pass the last block: then the file becomes a block longer and the missing bytes are zero, or, if there is no block, the read stops there |
| `SfsFile.SeenIsContent` | lab9/kern/fs/sfs/sfs_inode.c:553-644 | what a reader sees is the content where the size is within the blocks |
| `SfsFile.Phases` | lab9/kern/fs/sfs/sfs_inode.c:589-636 | how a range divides into a first part, whole blocks and a rest |
| `SfsFile.AcceptsExactly` | lab9/kern/fs/sfs/sfs_inode.c:556-567 | which offsets and lengths are accepted, with the sum kept in 32 bits |
| `SfsFile.WriteRefines` | lab9/kern/fs/sfs/sfs_inode.c:553-644 | at an offset within the size a write overwrites and extends the content as a byte sequence, and blocks = ceil(size / 4096) is kept |
| `SfsFile.ReadAfterWrite` | lab9/kern/fs/sfs/sfs_inode.c:553-644 | what was written is what is read back |
| `SfsFile.SizeWithoutBlocks` | lab9/kern/fs/sfs/sfs_inode.c:637-642 | a write at offset 1 of an empty file on a full volume leaves size 1 and no block |
| `SfsFile.FileSystem.Grow` | lab9/kern/fs/sfs/sfs_inode.c:941-949 | adds cleared blocks up to the number asked for and takes exactly what that costs, the indirect block included; stops short only when the next block cannot be had |
| `SfsFile.FileSystem.Truncate` | lab9/kern/fs/sfs/sfs_inode.c:923-967 | cuts or extends the file to the length; runs out of blocks if and only if there were fewer than it needs, and then keeps the size and as many blocks as there were; keeps blocks = ceil(size / 4096) if and only if there were blocks for all of it or for none; asked for the size the file has, stops at the assertion if and only if that equation fails |
| `SfsFile.TruncateRefines` | lab9/kern/fs/sfs/sfs_inode.c:923-967 | shrinking keeps the beginning of the content; growing keeps all of it and reads zero past the old last block |
| `SfsFile.BlocksWithoutSize` | lab9/kern/fs/sfs/sfs_inode.c:933-962 | growing by two blocks where there is one leaves a block beyond the size, and asking for that size then stops at the assertion |
| `SkewHeap.MergedNodes` | lab9/libs/skew_heap.h:29-58 | merging keeps exactly the entries of both heaps |
| `SkewHeap.MergedOrdered` | lab9/libs/skew_heap.h:29-58 | merging keeps heap order for every comparator that is a total preorder on the entries |
| `SkewHeap.Merge` | lab9/libs/skew_heap.h:29-58 | the pointers, parents included, are those of the merged tree |
| `SkewHeap.Insert` | lab9/libs/skew_heap.h:60-66 | adds exactly the entry, keeps order, and the root has no parent |
| `SkewHeap.Remove` | lab9/libs/skew_heap.h:68-85 | removes exactly the entry, root or interior, with exact parent agreement; order is kept even if the key of the removed entry was changed just before |
| `SkewHeap.KeyChanged` | lab9/kern/schedule/default_sched.c:108-134 | changing one key leaves the others in order |
| `Stride.CompareAgrees` | lab9/kern/schedule/default_sched.c:15-24 | strides at most BIG_STRIDE apart compare in 32 bits as they do unbounded |
| `Stride.WindowIsSharp` | lab9/kern/schedule/default_sched.c:15-24 | one further apart the comparison is reversed |
| `Stride.PickableIsLeast` | lab9/kern/schedule/default_sched.c:108-134 | within the window the 32-bit comparison picks exactly the true minima |
| `Stride.RunKeepsWindow` | lab9/kern/schedule/sched.c:77-99 | over every run with a fixed runnable set and fixed priorities nobody is ahead of another by more than its own pass |
| `Stride.SpreadBounded` | lab9/kern/schedule/default_sched.c:11-24 | over every such run the spread stays at most BIG_STRIDE |
| `Stride.Fair` | lab9/kern/schedule/default_sched.c:108-134 | from equal strides, what two processes have received differs by at most the larger pass |
| `Stride.Pass` | lab9/kern/schedule/default_sched.c:130-132 | the pass is the largest step of which as many as the priority says fit into BIG_STRIDE |
| `Stride.Proportional` | lab9/kern/schedule/default_sched.c:108-134 | over every run from equal strides the numbers of picks K and L of processes with priorities a and b are in proportion: BIG_STRIDE * (K * b - L * a) is at most BIG_STRIDE times the larger priority plus K * b * a for the rounding of the pass |
| `Stride.RunQueue.Enqueue` | lab9/kern/schedule/default_sched.c:58-73 | adds the process to the pool and refills its time slice |
| `Stride.RunQueue.PickNext` | lab9/kern/schedule/default_sched.c:108-134 | the first of the pool has the least true stride and advances by the pass of its priority |
| `Stride.RunQueue.Dequeue` | lab9/kern/schedule/default_sched.c:83-94 | removes the process whose key was just raised and restores order |
| `Stride.RunQueue.Schedule` | lab9/kern/schedule/sched.c:77-99 | one call puts the running process back, takes a process with the least true stride, which advances by the pass of its priority, and keeps the window |
| `Timers.TimerList.HeadPositive` | lab9/kern/schedule/sched.c:147-151 | between operations the first distance is never zero |
| `Timers.TimerList.Add` | lab9/kern/schedule/sched.c:101-121 | arming adds exactly that absolute deadline |
| `Timers.TimerList.Del` | lab9/kern/schedule/sched.c:123-140 | disarming removes exactly that deadline, and does nothing for a timer not armed |
| `Timers.TimerList.Tick` | lab9/kern/schedule/sched.c:142-172 | the timers that go off are exactly those whose deadline has come, in the order they were armed |
| `Timers.FiresOnTime` | lab9/kern/schedule/sched.c:101-172 | under any interleaving a timer armed with k goes off on exactly the k-th later tick unless disarmed before |
| `Pids.PidTable.Search` | lab9/kern/process/proc.c:195-215 | ends, at the first unused pid from the candidate on, round the end, with no pid in use inside the new safe interval |
| `Pids.PidTable.GetPid` | lab9/kern/process/proc.c:185-217 | the first pid after the last one given out, round the end, that no listed process has: every pid between the two is in use; the safe interval stays clear |
| `Pids.FirstUnusedUnique` | lab9/kern/process/proc.c:185-217 | that leaves one pid only |
| `Pids.PidTable.Fork` | lab9/kern/process/proc.c:433-499 | gives the new process that first unused pid; over every history of forks and reaps pids stay distinct; fails exactly when the table is full |
| `Pids.PidTable.Reap` | lab9/kern/process/proc.c:927-932 | giving a pid back keeps the interval clear |
| `ProcTree.FrontedLinked` | lab9/kern/process/proc.c:156-166 | linking a child in front leaves every chain listing exactly its parent's children once, with inverse pointers |
| `ProcTree.UnlinkedLinked` | lab9/kern/process/proc.c:168-182 | unlinking a child anywhere leaves all other chains right |
| `ProcTable.Table.Fork` | lab9/kern/process/proc.c:492-499 | the new process becomes the youngest child; nobody else changes |
| `ProcTable.Table.Exit` | lab9/kern/process/proc.c:540-568 | the process becomes a zombie without children, its children go to init in reversed order, and nobody stays asleep beside a zombie |
| `ProcTable.Table.Wait` | lab9/kern/process/proc.c:893-936 | reaps the child asked for, or the youngest child that has exited, or sleeps only when there is none, or reports that there is no child; nr_process stays the list length plus one |
| `ProcTable.Table.Reap` | lab9/kern/process/proc.c:927-932 | unlinks and forgets exactly that process |
| `ProcTable.ChildOf` | lab9/kern/process/proc.c:156-182 | a chain lists exactly the processes that name its owner as parent |
| `ProcTable.NoForgottenZombie` | lab9/kern/schedule/sched.c:57-75 | whoever sleeps waiting for any child has no child that has exited |
| `ConfString.WriteString` | ucore_plus/ucore/package/config/confdata.c:484-498 | the writing loop escapes every quote and backslash |
| `ConfString.ReadString` | ucore_plus/ucore/package/config/confdata.c:243-252 | the in-place loop yields what stands before the closing quote without the escapes, or nothing |
| `ConfString.RoundTrip` | ucore_plus/ucore/package/config/confdata.c:149-252 | a written string is read back if and only if the name begins with a capital letter, the string has no line break, and name and quoted string fit in the buffer of 1023 characters together; otherwise nothing is read |
| `ConfString.OverlongLost` | ucore_plus/ucore/package/config/confdata.c:149-252 | a string as long as the buffer is lost |
| `ConfFile.WriteConfig` | ucore_plus/ucore/package/config/confdata.c:466-498 | the lines of the settings in order |
| `ConfFile.ReadConfig` | ucore_plus/ucore/package/config/confdata.c:149-280 | the file is read piece by piece, and each known symbol keeps the first value it can have |
| `ConfFile.MeaningCarried` | ucore_plus/ucore/package/config/confdata.c:151-264 | whatever the text, a line sets a symbol to m, y or a string only if the writer could have put that setting in one line |
| `ConfFile.FileRoundTrip` | ucore_plus/ucore/package/config/confdata.c:149-280 | a file of distinct settings is read back if and only if each of them fits in a line |
| `ConfFile.PrefixKept` | ucore_plus/ucore/package/config/confdata.c:149-280 | settings that fit are undisturbed by any text after them |
| `ConfFile.BreakSetsOther` | ucore_plus/ucore/package/config/confdata.c:187-232 | a string with a line break followed by an assignment sets another symbol, and is lost itself |
| `Numbers.PrintNum` | lab9/libs/printfmt.c:54-69 | padding, then the digits, most significant first |
| `Numbers.Strtol` | lab9/libs/string.c:217-272 | blanks, sign, prefix, digits, with the value kept in 32 bits |
| `Numbers.DigitLetters` | lab9/libs/string.c:252-263 | exactly the decimal digit, or the small and the capital letter, is read as a value; printed are small letters |
| `Numbers.RoundTrip` | lab9/libs/string.c:217-272 | every number below 2^31 printed in any base up to 16, width and pad of blank or zero is parsed back to the end of the output, whose width is the larger of width and digits |
| `Numbers.SignedRoundTrip` | lab9/libs/string.c:228-244 | a sign and the prefixes 0x and 0 are understood |
| `Vmm.Mm.Insert` | lab9/kern/mm/vmm.c:115-143 | adds exactly the area and keeps the list sorted and disjoint |
| `Vmm.NeighboursSuffice` | lab9/kern/mm/vmm.c:131-137 | checking the two neighbours is equivalent to checking all areas |
| `Vmm.Mm.FindVma` | lab9/kern/mm/vmm.c:77-101 | with the cache or without, finds the area that contains the address if there is one |
| `Vmm.Mm.UserMemCheck` | lab9/kern/mm/vmm.c:547-568 | says yes if and only if the range is a user range and every byte lies in an area that allows the access, for writing not in the lowest page of a stack |
| `Vmm.MemCheck` | lab9/kern/mm/vmm.c:547-571 | the same, and kernel ranges when there is no process image |

## Left out

- Drivers, machine code, interrupt entry and page tables: port and memory-mapped effects.
- Device errors of the disk: every block transfer succeeds; running out of blocks is modelled.
- Files beyond 12 + 1024 blocks, and offsets or sizes more than one block past the end: the original stops the kernel there, so these are preconditions of `Read`, `Write`, `Load` and `Truncate`.
- Directories, path lookup, and writing the superblock and inodes back: a volume has a fixed sequence of files, and what is on the disk besides their blocks is not described.
- Numeric settings, choices, and the values a setting may take in the configuration file: only boolean, tristate and string settings are written and read.
- A block request for no units at all (`slob_alloc` of size 0): no caller makes one, since `kmalloc` adds the header, so `Alloc` asks for a positive size.
- kmalloc of 4080 to 4087 bytes: the original stops at an assertion, so the size is below 4080 in `Kmalloc`.
- Kconfig choice and range nodes, the parser, and freeing of expression nodes: expressions are values, and in-place reuse of nodes is not modelled beyond the two paths into one tree.
- The global change counter of the expression rewriter: each pass returns its count.
- Big kmalloc blocks, `find_order` and the alignment argument of the block allocator, which no caller uses.
- Round-robin and multi-level schedulers: not selected at start-up.
- New processes joining a running stride pool: they start at stride zero, so the window is stated for a fixed runnable set.
- The hash of process numbers and the kill call; waking through a timer is the timer list's result.
- Interrupted sleepers on a semaphore: the semaphore's own waits cannot be interrupted.
- Doubly linked lists and wait queues as pointer structures (`list.h`, `wait.c`): a list or a queue is a sequence, and wake-up flags are not modelled.
- Number printing for negative values and the other conversions of the formatter.
- Bitmap.Map: a 32-bit word is the sequence of its bits, and the bit operations are defined bit by bit.
- ProcTree and ProcTable: processes are records in a table, and pointers are keys of the table.
- FirstFit.PageAllocator and Slob.Allocator: page and block headers are maps from addresses.
- Concurrency inside the file system: its locks are not modelled, each call is one step.
