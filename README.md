# KLU refactorization and transpose solve, modelled in Dafny

This project models two engines of KLU, the sparse LU package for circuit
matrices, as they appear in the Java port (package
`edu.ufl.cise.klu.tdcomplex`):

* `klu_z_refactor` recomputes the numerical values of an existing LU
  factorization, block by block of the block-triangular form. The pivot
  order and the sparsity patterns are kept from the earlier factorization.
  A singleton block reads its one column straight into the diagonal of U.
  A larger block goes column by column:
  * scatter the column into the workspace `X`;
  * update along the fixed pattern of U (each `X[j]` is read into U and
    cleared, then column j of L is subtracted);
  * take the pivot;
  * gather and divide into L's pattern.

  Entries whose permuted row lies before the block go to the off-diagonal
  store `Offx`, through one running cursor `poff` that is capped at
  `nzoff`. With scaling on, every entry is first divided by its row's scale
  factor, and at the end the scale factors are put into pivotal row order.
  The first zero pivot of a general block records `numerical_rank` and
  `singular_col`. With `halt_if_singular` set, that pivot also ends the run.
* `klu_z_tsolve` solves A' x = b for `nrhs` right-hand sides held in B with
  leading dimension `d`, in chunks of up to four columns. Each chunk goes
  through three steps:
  * permute in by Q into an interleaved workspace, where column c of row k
    sits at `X[nr*k + c]`;
  * sweep the blocks forward: an off-diagonal correction for every block
    after the first, then a division by the diagonal of U (singleton block)
    or the block's U' and L' solves;
  * permute out by `Pnum`, dividing by the row scale factors when scaling
    is on.

Values are exact reals. `DIV` is a total division (`KluCommon.Div`), and
`MULT_SUB` is `a - l*u`.

The layout of the project:

* `klu_common.dfy`: the descriptors. The symbolic object is an immutable
  datatype. The numeric object and the status object are classes, with the
  factor buffers as arrays.
* `refactor_spec.dfy`: the refactorization as pure left folds over an
  engine state `RState` (workspace, `Offx`, `Udiag`, block buffers, cursor,
  status, rank, singular column, halt flag).
* `refactor.dfy`: the imperative engine over the descriptor's arrays. Every
  loop is proved equal to its fold.
* `refactor_props.dfy` and `column_props.dfy`: what the folds guarantee
  (cursor discipline, singleton diagonal, first zero pivot, where each step
  writes, workspace cleared after each column and after the run).
* `scaled_update.dfy`: the divergence of the scaled branch (see Findings).
* `tsolve_spec.dfy`: the transpose solve as folds over the interleaved
  workspace and over B.
* `tsolve.dfy`: the imperative solve, proved equal to those folds.
* `tsolve_props.dfy`: what the folds guarantee (permute-in and permute-out
  entry by entry, the correction reads only earlier blocks, the block
  solves change only their own rows, padding rows and columns outside the
  chunk stay untouched, and each column of a chunk is computed as if it
  were alone).

## Model

| member | source | states |
|---|---|---|
| KluRefactor.Refactor | src/main/java/edu/ufl/cise/klu/tdcomplex/DZklu_refactor.java:51-541 | Without a status object it returns FALSE and touches nothing. Without a numeric object it sets KLU_INVALID, returns FALSE and leaves rank and singular column alone. Otherwise the outcome is `RefactorPost`: the scaling helper's verdict, Rs present exactly when scale > 0, and the factors of the block loop. |
| KluRefactor.RefactorChecked | src/main/java/edu/ufl/cise/klu/tdcomplex/DZklu_refactor.java:82-541 | With both objects present, the descriptor is left valid. After a rejection by the scaling helper no factor array is written; otherwise the factors, status and result are those of the block loop from the state after the workspace is cleared. |
| KluRefactor.PrepareScaleFactors | src/main/java/edu/ufl/cise/klu/tdcomplex/DZklu_refactor.java:91-158 | Rank and singular column become EMPTY and nrealloc 0. Rs is present if and only if scale > 0, and an existing Rs is reused. The run goes on if and only if scale < 0 or the helper accepts the matrix. A rejection leaves the helper's status. Accepted scale factors are copied into Rs. |
| KluRefactor.ClearWorkspace | src/main/java/edu/ufl/cise/klu/tdcomplex/DZklu_refactor.java:164-168 | X[0..maxblock) is set to zero and the rest of X is kept (`ClearUpTo`). |
| KluRefactor.RunEngine | src/main/java/edu/ufl/cise/klu/tdcomplex/DZklu_refactor.java:160-495 | The engine leaves exactly `FactorsOf`: the state `BlocksUpTo` reaches over all blocks, its status and return value, and with scaling on and no early return, Rs and X[0..n) holding the scale factors in pivotal row order. |
| KluRefactor.RefactorBlocks | src/main/java/edu/ufl/cise/klu/tdcomplex/DZklu_refactor.java:176-324 | The block loop from cursor 0 ends in the state `BlocksUpTo` gives over all blocks. |
| KluRefactor.RefactorBlock | src/main/java/edu/ufl/cise/klu/tdcomplex/DZklu_refactor.java:188-323 | One block changes the engine state exactly as `FactorBlock`: a singleton is scanned, a general block is factored column by column. |
| KluRefactor.RefactorSingleton | src/main/java/edu/ufl/cise/klu/tdcomplex/DZklu_refactor.java:199-220 | A singleton block changes Offx, the cursor and Udiag[k1] as `SingletonBlock`, and nothing else of the state. |
| KluRefactor.ScanSingleton | src/main/java/edu/ufl/cise/klu/tdcomplex/DZklu_refactor.java:201-219 | The scan of the singleton column returns the cursor, Offx and diagonal value that `SingletonUpTo` gives. |
| KluRefactor.RefactorColumns | src/main/java/edu/ufl/cise/klu/tdcomplex/DZklu_refactor.java:222-321 | The column loop of a general block ends in `ColumnsUpTo` over all its columns. A stop in one column ends the block. |
| KluRefactor.ColumnLoop | src/main/java/edu/ufl/cise/klu/tdcomplex/DZklu_refactor.java:236-321 | From any well-formed state, the loop over the block's columns ends in `ColumnsUpTo` of that state. |
| KluRefactor.RefactorColumnStep | src/main/java/edu/ufl/cise/klu/tdcomplex/DZklu_refactor.java:238-320 | One pass of the column loop advances the fold by exactly one `FactorColumn` step. |
| KluRefactor.RefactorColumn | src/main/java/edu/ufl/cise/klu/tdcomplex/DZklu_refactor.java:244-319 | Column k of a general block changes the engine state exactly as `FactorColumn`: scatter, then, unless the scatter faulted, elimination. |
| KluRefactor.ScatterColumn | src/main/java/edu/ufl/cise/klu/tdcomplex/DZklu_refactor.java:246-262 | The scatter leaves X, Offx, the cursor and the fault flag of `ScatterUpTo` over the column's entries. |
| KluRefactor.EliminateInPlace | src/main/java/edu/ufl/cise/klu/tdcomplex/DZklu_refactor.java:264-318 | Update along U, pivot and gather change the state as `EliminateColumn`. |
| KluRefactor.UpdateInPlace | src/main/java/edu/ufl/cise/klu/tdcomplex/DZklu_refactor.java:264-290 | After the update along U, the pivot returned is X[k], and X[k] is cleared in the new state. |
| KluRefactor.UpdateU | src/main/java/edu/ufl/cise/klu/tdcomplex/DZklu_refactor.java:268-286 | The loop over U's pattern leaves X and the block buffer as `UUpdateUpTo` over all of the pattern. |
| KluRefactor.UpdateStep | src/main/java/edu/ufl/cise/klu/tdcomplex/DZklu_refactor.java:270-285 | One entry of U's pattern advances the update fold by one step. |
| KluRefactor.MultSubColumn | src/main/java/edu/ufl/cise/klu/tdcomplex/DZklu_refactor.java:281-285 | X after subtracting column j of L times ujk is `MultSubUpTo` over the whole column. |
| KluRefactor.FinishInPlace | src/main/java/edu/ufl/cise/klu/tdcomplex/DZklu_refactor.java:292-318 | Pivot bookkeeping, then the gather unless the run stops, change the state as `FinishColumn`. |
| KluRefactor.PivotInPlace | src/main/java/edu/ufl/cise/klu/tdcomplex/DZklu_refactor.java:292-306 | The pivot test changes status, rank, singular column and halt as `Pivot`. |
| KluRefactor.RecordPivot | src/main/java/edu/ufl/cise/klu/tdcomplex/DZklu_refactor.java:292-306 | The status fields afterwards are those `Pivot` gives from the fields before. |
| KluRefactor.GatherInPlace | src/main/java/edu/ufl/cise/klu/tdcomplex/DZklu_refactor.java:307-318 | Storing the pivot and gathering L change the state as `GatherColumn`. |
| KluRefactor.GatherL | src/main/java/edu/ufl/cise/klu/tdcomplex/DZklu_refactor.java:312-318 | The gather loop leaves X and the buffer as `GatherUpTo` over all of L's pattern. |
| KluRefactor.PermuteScaleFactors | src/main/java/edu/ufl/cise/klu/tdcomplex/DZklu_refactor.java:483-495 | Rs[k] = Rs_old[Pnum[k]] for k < n, and X[k] holds the same values. The entries from n on are unchanged. |
| KluRefactor.ScatterFaultStays | src/main/java/edu/ufl/cise/klu/tdcomplex/DZklu_refactor.java:257-261 | Once the scatter has raised the index fault, scanning further entries changes nothing. |
| KluRefactor.SnapshotOk | src/main/java/edu/ufl/cise/klu/tdcomplex/DZklu_refactor.java:98-170 | The descriptor seen through a matching context is a well-formed engine state. |
| RefactorSpec.ColumnsFromStopped | src/main/java/edu/ufl/cise/klu/tdcomplex/DZklu_refactor.java:301-305 | From a stopped state, the column loop changes nothing. |
| RefactorSpec.ColumnsStopStays | src/main/java/edu/ufl/cise/klu/tdcomplex/DZklu_refactor.java:301-305 | Once a column stops the run, the later columns of the block change nothing. |
| RefactorSpec.FactorBlockFromStopped | src/main/java/edu/ufl/cise/klu/tdcomplex/DZklu_refactor.java:301-305 | A stopped run leaves every later block untouched. |
| RefactorSpec.BlocksStopStays | src/main/java/edu/ufl/cise/klu/tdcomplex/DZklu_refactor.java:301-305 | Once a block stops the run, the later blocks change nothing. |
| RefactorProps.OffValsAt | src/main/java/edu/ufl/cise/klu/tdcomplex/DZklu_refactor.java:251-255 | Earlier-block entry p of a scan is the OffCount(p0, p)-th value routed to Offx, and that index lies below the count for the whole scan. |
| RefactorProps.ScatterCursor | src/main/java/edu/ufl/cise/klu/tdcomplex/DZklu_refactor.java:246-262 | The scatter faults if and only if the entries of earlier blocks outnumber the slots left below nzoff. Otherwise the cursor advances by their number, only Offx slots the cursor passes are written, and those slots hold the earlier-block values in scan order (`OffVals`). |
| RefactorProps.SingletonCursor | src/main/java/edu/ufl/cise/klu/tdcomplex/DZklu_refactor.java:201-219 | The singleton scan moves the cursor to min(poff + count of earlier-block entries, nzoff), writing only the slots it passes. Those slots hold the first earlier-block values in scan order (`OffVals`). |
| RefactorProps.ScatterOffValues | src/main/java/edu/ufl/cise/klu/tdcomplex/DZklu_refactor.java:248-256 | In a scatter that does not fault, earlier-block entry p is stored at Offx[poff + OffCount(p0, p)], a slot below the new cursor. |
| RefactorProps.SingletonOffValues | src/main/java/edu/ufl/cise/klu/tdcomplex/DZklu_refactor.java:204-211 | In a singleton scan, an earlier-block entry p met while the cursor is below nzoff is stored at Offx[poff + OffCount(p0, p)], a slot below the new cursor. |
| RefactorProps.ColumnCursor | src/main/java/edu/ufl/cise/klu/tdcomplex/DZklu_refactor.java:244-319 | One general column keeps the cursor discipline: the cursor never moves back, and Offx changes only in the slots it passed. |
| RefactorProps.ColumnsCursor | src/main/java/edu/ufl/cise/klu/tdcomplex/DZklu_refactor.java:222-321 | The same discipline holds over the columns of a block. |
| RefactorProps.BlockCursor | src/main/java/edu/ufl/cise/klu/tdcomplex/DZklu_refactor.java:188-323 | The same discipline holds over one block. |
| RefactorProps.BlocksCursor | src/main/java/edu/ufl/cise/klu/tdcomplex/DZklu_refactor.java:176-324 | Over the whole block loop the cursor never decreases and never exceeds nzoff, and Offx is written only between its start and end. Those slots hold the off-diagonal values of the blocks in column order (`RunOffVals`), all of them unless the cursor reached nzoff or the run stopped. |
| RefactorProps.ColumnOffStep | src/main/java/edu/ufl/cise/klu/tdcomplex/DZklu_refactor.java:244-319 | One general column stores its earlier-block values at the cursor, all of them unless the cursor reached nzoff or the run stopped. |
| RefactorProps.ColumnOffExtend | src/main/java/edu/ufl/cise/klu/tdcomplex/DZklu_refactor.java:244-319 | Column k appends its stored values to those of the block's earlier columns. |
| RefactorProps.ColumnsOffStep | src/main/java/edu/ufl/cise/klu/tdcomplex/DZklu_refactor.java:222-321 | The first q columns of a general block store their earlier-block values in column order. |
| RefactorProps.BlockOffStep | src/main/java/edu/ufl/cise/klu/tdcomplex/DZklu_refactor.java:188-323 | A block of either kind stores its earlier-block values at the cursor in column order. |
| RefactorProps.BlockOffExtend | src/main/java/edu/ufl/cise/klu/tdcomplex/DZklu_refactor.java:176-324 | Block b appends its stored values to those of the blocks before it. |
| RefactorProps.OffDiagonalAfterRun | src/main/java/edu/ufl/cise/klu/tdcomplex/DZklu_refactor.java:176-324 | After the run from the start state, Offx[0..poff) holds the off-diagonal values of all blocks in column order, the rest of Offx is unchanged, and a completed run stores all of them or fills Offx up to nzoff. |
| RefactorProps.SingletonScanKeepsLast | src/main/java/edu/ufl/cise/klu/tdcomplex/DZklu_refactor.java:201-219 | The value the singleton scan keeps is that of the last entry not routed to Offx. |
| RefactorProps.SingletonDiagonal | src/main/java/edu/ufl/cise/klu/tdcomplex/DZklu_refactor.java:201-219 | Udiag[k1] becomes the last in-block entry scanned, or zero when there is none. No other diagonal entry, no workspace slot and no block buffer changes. |
| RefactorProps.ColumnPivotRecord | src/main/java/edu/ufl/cise/klu/tdcomplex/DZklu_refactor.java:292-306 | A general column extends the pivot record by one column. |
| RefactorProps.FinishPivotRecord | src/main/java/edu/ufl/cise/klu/tdcomplex/DZklu_refactor.java:292-318 | Recording and gathering a general column extends the record: the rank is set only at the first zero pivot, to k+k1 and Q[k+k1], and later zero pivots only set SINGULAR again. |
| RefactorProps.NonzeroPivotRecord | src/main/java/edu/ufl/cise/klu/tdcomplex/DZklu_refactor.java:292-306 | A nonzero pivot extends the record and is stored in Udiag. |
| RefactorProps.ZeroPivotRecord | src/main/java/edu/ufl/cise/klu/tdcomplex/DZklu_refactor.java:292-306 | Without the halt policy, a zero pivot sets SINGULAR, records the rank only if none was recorded, and is stored in Udiag. |
| RefactorProps.HaltPivotRecord | src/main/java/edu/ufl/cise/klu/tdcomplex/DZklu_refactor.java:292-303 | With the halt policy, the first zero pivot records the rank and stops the run before Udiag is written. |
| RefactorProps.ColumnsPivotRecord | src/main/java/edu/ufl/cise/klu/tdcomplex/DZklu_refactor.java:222-321 | The record holds over the columns of a general block. |
| RefactorProps.SingletonPivotRecord | src/main/java/edu/ufl/cise/klu/tdcomplex/DZklu_refactor.java:199-220 | A singleton block leaves the record valid: its pivot is not tested. |
| RefactorProps.BlockPivotRecord | src/main/java/edu/ufl/cise/klu/tdcomplex/DZklu_refactor.java:188-323 | One block extends the record over its columns. |
| RefactorProps.BlocksPivotRecord | src/main/java/edu/ufl/cise/klu/tdcomplex/DZklu_refactor.java:176-324 | From a state with nothing recorded, the record holds after every block. |
| RefactorProps.FirstZeroPivot | src/main/java/edu/ufl/cise/klu/tdcomplex/DZklu_refactor.java:91-306 | After the run, status is SINGULAR if and only if a rank is recorded. The rank is a general column whose Q entry is the singular column. In a completed run the rank's pivot is zero and no earlier general column has a zero pivot, and a run that records nothing has no general column with a zero pivot. A run halted at a zero pivot has a rank: every earlier general column has a nonzero pivot, and Udiag is unchanged from the rank on. |
| ColumnProps.MultSubWritesRows | src/main/java/edu/ufl/cise/klu/tdcomplex/DZklu_refactor.java:281-285 | Subtracting a column of L changes X only at that column's rows. |
| ColumnProps.UUpdateWritesU | src/main/java/edu/ufl/cise/klu/tdcomplex/DZklu_refactor.java:268-286 | The update along U writes the block buffer only at the value slots of column k of U it has reached. |
| ColumnProps.UUpdateStoredAt | src/main/java/edu/ufl/cise/klu/tdcomplex/DZklu_refactor.java:271-275 | The value stored at slot up of column k of U is X[Ui[up]] as it stood when the update reached up. |
| ColumnProps.UUpdateStoresU | src/main/java/edu/ufl/cise/klu/tdcomplex/DZklu_refactor.java:268-286 | Every slot of column k of U that the update has reached holds X at that row as it stood when the update reached it. |
| ColumnProps.GatherClears | src/main/java/edu/ufl/cise/klu/tdcomplex/DZklu_refactor.java:312-318 | The gather clears X exactly at L's rows, keeps every other X slot, and writes the buffer only in L's value slots. |
| ColumnProps.GatherDivides | src/main/java/edu/ufl/cise/klu/tdcomplex/DZklu_refactor.java:312-318 | With distinct rows, each L(i,k) stored is X[i] / ukk, with X[i] taken before the gather. |
| ColumnProps.GatherColumnStores | src/main/java/edu/ufl/cise/klu/tdcomplex/DZklu_refactor.java:307-318 | Udiag[k+k1] is the final X[k]. Each L(i,k) is X[i]/ukk, and X is cleared at L's rows. Every other buffer slot, block and diagonal entry is unchanged. |
| ColumnProps.HaltLeavesColumn | src/main/java/edu/ufl/cise/klu/tdcomplex/DZklu_refactor.java:301-305 | A column that stops the run had a zero pivot under the halt policy. Status is SINGULAR, the diagonal is unchanged, and of the block buffers only column k of U was written, so its L and every other block are untouched. |
| ColumnProps.ScatterWritesRows | src/main/java/edu/ufl/cise/klu/tdcomplex/DZklu_refactor.java:248-262 | The scatter changes X only at the in-block rows of the scanned entries. |
| ColumnProps.UpdateStepPending | src/main/java/edu/ufl/cise/klu/tdcomplex/DZklu_refactor.java:271-285 | One step of the update clears X[j] and writes only slots that the rest of the column still reads. |
| ColumnProps.UpdateKeepsPending | src/main/java/edu/ufl/cise/klu/tdcomplex/DZklu_refactor.java:268-286 | With a closed pattern, every nonzero workspace slot stays one that the rest of the column still reads. |
| ColumnProps.PendingAtPivot | src/main/java/edu/ufl/cise/klu/tdcomplex/DZklu_refactor.java:288-290 | Once U's pattern is done and X[k] cleared, the only nonzero slots are rows of L. |
| ColumnProps.ScatterPending | src/main/java/edu/ufl/cise/klu/tdcomplex/DZklu_refactor.java:246-262 | Scattering a column whose entries lie in its pattern into a zero workspace leaves nonzero only slots the column still reads. |
| ColumnProps.UpdatePending | src/main/java/edu/ufl/cise/klu/tdcomplex/DZklu_refactor.java:268-290 | After the update and the clearing of the pivot slot, the nonzero slots are rows of L. |
| ColumnProps.FinishClearsX | src/main/java/edu/ufl/cise/klu/tdcomplex/DZklu_refactor.java:307-318 | If only L's rows are nonzero, finishing the column leaves X zero below maxblock unless the run stops. |
| ColumnProps.ColumnClearsX | src/main/java/edu/ufl/cise/klu/tdcomplex/DZklu_refactor.java:244-319 | A general column with a closed pattern, started with X zero below maxblock, leaves it zero unless it stops the run. |
| ColumnProps.ColumnsClearX | src/main/java/edu/ufl/cise/klu/tdcomplex/DZklu_refactor.java:222-321 | The same holds over the columns of a block. |
| ColumnProps.BlocksClearX | src/main/java/edu/ufl/cise/klu/tdcomplex/DZklu_refactor.java:176-324 | The same holds over the block loop. |
| ColumnProps.WorkspaceClearAfterRun | src/main/java/edu/ufl/cise/klu/tdcomplex/DZklu_refactor.java:164-168 | X[0..maxblock) is zero before the first block, and a run that completes leaves it zero again. |
| ScaledUpdate.MultSubUpToAsWritten | src/main/java/edu/ufl/cise/klu/tdcomplex/DZklu_refactor.java:436-440 | The scaled branch's update as written, reading L at slot p of the buffer; it keeps X's length. |
| ScaledUpdate.AsWrittenAgreesAtOffsetZero | src/main/java/edu/ufl/cise/klu/tdcomplex/DZklu_refactor.java:438 | For a column whose values start at offset 0, the read as written and the intended read agree. |
| ScaledUpdate.AsWrittenDiverges | src/main/java/edu/ufl/cise/klu/tdcomplex/DZklu_refactor.java:438 | For a column at offset 1, the read as written and the intended read give different X. |
| ScaledUpdate.MultSubSubtractsColumn | src/main/java/edu/ufl/cise/klu/tdcomplex/DZklu_refactor.java:281-285 | The intended update, which the model uses in both branches: X[rows[p]] becomes X[rows[p]] - L(rows[p], j) * ujk, with L read at the column's offset plus p, and other rows are unchanged. |
| KluTsolve.Tsolve | src/main/java/edu/ufl/cise/klu/tdcomplex/DZklu_tsolve.java:57-481 | Without a status object it returns FALSE and touches nothing. Null descriptors or B, d < n or nrhs < 0 give KLU_INVALID, FALSE and B unchanged. Otherwise it gives KLU_OK, TRUE and B = `SolveFrom` over all nrhs columns. Only the status field changes. |
| KluTsolve.SolveAll | src/main/java/edu/ufl/cise/klu/tdcomplex/DZklu_tsolve.java:84-480 | With valid arguments: status KLU_OK, result TRUE, and B = `SolveFrom` from B_offset over nrhs columns. |
| KluTsolve.ChunkLoop | src/main/java/edu/ufl/cise/klu/tdcomplex/DZklu_tsolve.java:121-128 | Chunks of min(nrhs - chunk, 4) columns, each 4 d further on, leave B = `SolveFrom`. nrhs = 0 leaves B as it was. |
| KluTsolve.SolveChunk | src/main/java/edu/ufl/cise/klu/tdcomplex/DZklu_tsolve.java:128-472 | One chunk leaves B = `ChunkB`: permuted in, swept and permuted out. |
| KluTsolve.PermuteIn | src/main/java/edu/ufl/cise/klu/tdcomplex/DZklu_tsolve.java:134-178 | The first nr*n workspace entries become `PermInUpTo` over all n rows. |
| KluTsolve.Sweep | src/main/java/edu/ufl/cise/klu/tdcomplex/DZklu_tsolve.java:184-356 | The block loop leaves the workspace as `SweepUpTo` over all blocks. |
| KluTsolve.SweepBlock | src/main/java/edu/ufl/cise/klu/tdcomplex/DZklu_tsolve.java:191-356 | One block is `BlockStep`: the correction (none for block 0), then the block solve. |
| KluTsolve.OffDiagonal | src/main/java/edu/ufl/cise/klu/tdcomplex/DZklu_tsolve.java:200-301 | The correction of a block leaves the workspace as `OffUpTo` over all the block's rows. |
| KluTsolve.CorrectRow | src/main/java/edu/ufl/cise/klu/tdcomplex/DZklu_tsolve.java:205-299 | The accumulators of row k hold `OffRow`: each entry less Offx[p] times the entry of row Offi[p], over the row's off-diagonal entries. |
| KluTsolve.DivideSingleton | src/main/java/edu/ufl/cise/klu/tdcomplex/DZklu_tsolve.java:307-348 | A singleton block leaves the workspace as `SolveBlock`, which divides row k1 by Udiag[k1]. |
| KluTsolve.SolveGeneral | src/main/java/edu/ufl/cise/klu/tdcomplex/DZklu_tsolve.java:349-355 | A larger block leaves the workspace as `SolveBlock`: the U' solve, then the L' solve, on the block's slice. |
| KluTsolve.PermuteOut | src/main/java/edu/ufl/cise/klu/tdcomplex/DZklu_tsolve.java:362-472 | B becomes `OutUpTo` over all n rows of the workspace. |
| KluTsolve.PutOut | src/main/java/edu/ufl/cise/klu/tdcomplex/DZklu_tsolve.java:369-376 | Row k of the workspace is stored at row Pnum[k] of each chunk column, unscaled (`PutRow`). |
| KluTsolve.Store | src/main/java/edu/ufl/cise/klu/tdcomplex/DZklu_tsolve.java:212-216 | The accumulated row is written back to its nr slots, and the rest of the workspace is kept (`Splice`). |
| TsolveSpec.FitsNext | src/main/java/edu/ufl/cise/klu/tdcomplex/DZklu_tsolve.java:121-128 | Each chunk has 1 to 4 columns inside B, and the columns after it fit from B_offset + 4 d on. |
| TsolveSpec.SolveFromDone | src/main/java/edu/ufl/cise/klu/tdcomplex/DZklu_tsolve.java:121 | With no columns left, B is unchanged. |
| TsolveSpec.SolveFromNext | src/main/java/edu/ufl/cise/klu/tdcomplex/DZklu_tsolve.java:478 | Solving the first chunk and then the columns 4 d further on solves them all. |
| TsolveSpec.OffUpToNext | src/main/java/edu/ufl/cise/klu/tdcomplex/DZklu_tsolve.java:205-218 | Correcting one more row splices that row's corrected entries into the workspace. |
| TsolveSpec.DivideRowAt | src/main/java/edu/ufl/cise/klu/tdcomplex/DZklu_tsolve.java:312-346 | Dividing row k divides exactly its nr entries by Udiag[k] and keeps every other entry. |
| TsolveProps.PermInPrefixAt | src/main/java/edu/ufl/cise/klu/tdcomplex/DZklu_tsolve.java:134-178 | Within the first K rows, X[nr*k + c] = B[off + Q[k] + c*d]. |
| TsolveProps.PermInAt | src/main/java/edu/ufl/cise/klu/tdcomplex/DZklu_tsolve.java:134-178 | After permute-in, X[nr*k + c] = B[off + Q[k] + c*d] for every k < n and c < nr. |
| TsolveProps.RowSumFrame | src/main/java/edu/ufl/cise/klu/tdcomplex/DZklu_tsolve.java:205-299 | The correction of row k reads only the rows before the block and its own entry. |
| TsolveProps.OffStepAt | src/main/java/edu/ufl/cise/klu/tdcomplex/DZklu_tsolve.java:205-299 | One more corrected row changes exactly that row's nr entries. |
| TsolveProps.OffPrefixKeeps | src/main/java/edu/ufl/cise/klu/tdcomplex/DZklu_tsolve.java:200-301 | Correcting the first i rows of a block keeps every entry outside them. |
| TsolveProps.OffLastRow | src/main/java/edu/ufl/cise/klu/tdcomplex/DZklu_tsolve.java:205-299 | The row corrected last reads the entries as they were before the correction began. |
| TsolveProps.OffPrefixRow | src/main/java/edu/ufl/cise/klu/tdcomplex/DZklu_tsolve.java:200-301 | Each corrected row k holds X[k,c] less the sum of Offx[p] * X[Offi[p],c] over the values before the correction: rows corrected before it are never read. |
| TsolveProps.CorrectedKeeps | src/main/java/edu/ufl/cise/klu/tdcomplex/DZklu_tsolve.java:200 | The correction is skipped for block 0, and for later blocks only the block's own rows change. |
| TsolveProps.CorrectedRow | src/main/java/edu/ufl/cise/klu/tdcomplex/DZklu_tsolve.java:200-301 | For a later block, X[k,c] becomes X[k,c] less the sum of Offx[p] * X[Offi[p],c] over p in [Offp[k], Offp[k+1]). |
| TsolveProps.SingletonAt | src/main/java/edu/ufl/cise/klu/tdcomplex/DZklu_tsolve.java:307-348 | A singleton block divides its nr entries X[nr*k1 + c] by Udiag[k1], and no other slot changes. |
| TsolveProps.SingletonUndone | src/main/java/edu/ufl/cise/klu/tdcomplex/DZklu_tsolve.java:307-348 | With a nonzero diagonal entry, the divided entry times Udiag[k1] gives back the entry: the singleton solve inverts U[k1,k1]. |
| TsolveProps.GeneralAt | src/main/java/edu/ufl/cise/klu/tdcomplex/DZklu_tsolve.java:349-355 | A larger block replaces X[nr*k1 .. nr*k2) by the L' solve of the U' solve of that slice, and keeps everything else. |
| TsolveProps.SolveBlockKeeps | src/main/java/edu/ufl/cise/klu/tdcomplex/DZklu_tsolve.java:307-355 | Either block solve changes only the block's own rows. |
| TsolveProps.SweepKeepsLater | src/main/java/edu/ufl/cise/klu/tdcomplex/DZklu_tsolve.java:184-356 | The sweep goes forward: after q blocks, the rows of the later blocks are still as permuted in. |
| TsolveProps.Apart | src/main/java/edu/ufl/cise/klu/tdcomplex/DZklu_tsolve.java:362-472 | With d >= n, distinct (row < n, column) pairs are distinct positions of B. |
| TsolveProps.PutRowMiss | src/main/java/edu/ufl/cise/klu/tdcomplex/DZklu_tsolve.java:369-376 | Storing a row leaves every position that is not row Pnum[k] of one of its columns. |
| TsolveProps.PutRowHit | src/main/java/edu/ufl/cise/klu/tdcomplex/DZklu_tsolve.java:369-376 | Storing a row puts entry c, unscaled, at row Pnum[k] of column c. |
| TsolveProps.OutPrefixMiss | src/main/java/edu/ufl/cise/klu/tdcomplex/DZklu_tsolve.java:362-472 | The first K rows stored leave every position that no row k < K maps to. |
| TsolveProps.OutPrefixHit | src/main/java/edu/ufl/cise/klu/tdcomplex/DZklu_tsolve.java:362-472 | With Pnum one-to-one, B[off + Pnum[k] + c*d] holds X[nr*k + c], unscaled, once row k is stored, whatever later rows do. |
| TsolveProps.OtherRowMiss | src/main/java/edu/ufl/cise/klu/tdcomplex/DZklu_tsolve.java:362-472 | With Pnum one-to-one, distinct rows are stored at distinct positions. |
| TsolveProps.OutAt | src/main/java/edu/ufl/cise/klu/tdcomplex/DZklu_tsolve.java:362-472 | After permute-out, B[off + Pnum[k] + c*d] = X[nr*k + c], divided by Rs[k] when Rs is present. |
| TsolveProps.OutsideMiss | src/main/java/edu/ufl/cise/klu/tdcomplex/DZklu_tsolve.java:362-472 | A position before the chunk or past its last column is no store target. |
| TsolveProps.OutKeepsOutside | src/main/java/edu/ufl/cise/klu/tdcomplex/DZklu_tsolve.java:362-472 | Permute-out writes nothing before the chunk or past its last column. |
| TsolveProps.PadMiss | src/main/java/edu/ufl/cise/klu/tdcomplex/DZklu_tsolve.java:362-472 | Rows n .. d-1 of any column are no store target. |
| TsolveProps.OutKeepsPadding | src/main/java/edu/ufl/cise/klu/tdcomplex/DZklu_tsolve.java:362-472 | Positions at rows >= n within the leading dimension are never written by permute-out. |
| TsolveProps.ChunkKeepsOutside | src/main/java/edu/ufl/cise/klu/tdcomplex/DZklu_tsolve.java:128-472 | A solved chunk leaves B alone before its first column and past its last. |
| TsolveProps.ChunkKeepsPadding | src/main/java/edu/ufl/cise/klu/tdcomplex/DZklu_tsolve.java:128-472 | A solved chunk leaves rows n .. d-1 of its columns alone. |
| TsolveProps.LastChunkKeepsOutside | src/main/java/edu/ufl/cise/klu/tdcomplex/DZklu_tsolve.java:121-480 | A final chunk of at most 4 columns leaves B alone outside them. |
| TsolveProps.FirstChunkKeepsOutside | src/main/java/edu/ufl/cise/klu/tdcomplex/DZklu_tsolve.java:121-480 | With more than 4 columns, the first chunk leaves alone what lies outside all of them, and that position also lies outside the remaining columns. |
| TsolveProps.SolveFromKeepsOutside | src/main/java/edu/ufl/cise/klu/tdcomplex/DZklu_tsolve.java:121-480 | The whole solve writes nothing before B_offset or past the last of the nrhs columns. |
| TsolveProps.FirstChunkKeepsPadding | src/main/java/edu/ufl/cise/klu/tdcomplex/DZklu_tsolve.java:121-480 | The padding rows of a column in the first chunk survive the whole solve. |
| TsolveProps.EarlyChunkKeepsPadding | src/main/java/edu/ufl/cise/klu/tdcomplex/DZklu_tsolve.java:121-480 | With more than four columns, the padding rows of a column in the first chunk survive both that chunk and all later ones. |
| TsolveProps.LastChunkKeepsPadding | src/main/java/edu/ufl/cise/klu/tdcomplex/DZklu_tsolve.java:121-480 | The padding rows of a column in a final chunk survive the solve. |
| TsolveProps.LaterChunkKeepsPadding | src/main/java/edu/ufl/cise/klu/tdcomplex/DZklu_tsolve.java:121-480 | A column past the first chunk keeps its padding through that chunk, and it is column c - 4 of the rest. |
| TsolveProps.SolveFromKeepsPadding | src/main/java/edu/ufl/cise/klu/tdcomplex/DZklu_tsolve.java:121-480 | Across the whole solve, rows n .. d-1 of every column are never written. |
| TsolveProps.PermInColumn | src/main/java/edu/ufl/cise/klu/tdcomplex/DZklu_tsolve.java:134-178 | Column c of a chunk permuted in is that column of B permuted in alone (nr = 1 at off + c*d). |
| TsolveProps.RowSumColumn | src/main/java/edu/ufl/cise/klu/tdcomplex/DZklu_tsolve.java:205-299 | The correction sum of entry c over nr columns is the sum over column c alone. |
| TsolveProps.CorrectedColumnAt | src/main/java/edu/ufl/cise/klu/tdcomplex/DZklu_tsolve.java:200-301 | Row k of column c of the corrected chunk equals row k of column c corrected alone. |
| TsolveProps.CorrectedColumn | src/main/java/edu/ufl/cise/klu/tdcomplex/DZklu_tsolve.java:200-301 | The off-diagonal correction of nr columns, taken at column c, is the correction of column c alone, with the same arithmetic for nr = 1..4. |
| TsolveProps.DivideRowEntry | src/main/java/edu/ufl/cise/klu/tdcomplex/DZklu_tsolve.java:312-346 | Entry j of a row division is divided exactly when it lies in that row. |
| TsolveProps.DivideRowColumnAt | src/main/java/edu/ufl/cise/klu/tdcomplex/DZklu_tsolve.java:312-346 | Row k of column c of a divided chunk equals row k of column c divided alone. |
| TsolveProps.DivideRowColumn | src/main/java/edu/ufl/cise/klu/tdcomplex/DZklu_tsolve.java:312-346 | The singleton division of nr columns, taken at column c, is the division of column c alone. |

## Left out

- Floating point and complex arithmetic: values are exact reals. The real/imaginary pairs, rounding, and NaN or infinity from a zero pivot or a zero scale factor are not modelled. Division by zero yields 0 (`KluCommon.Div`).
- The helpers `klu_z_scale`, `klu_z_malloc_dbl`, `klu_z_valid` and `klu_z_valid_LU` are not part of this model. The scaling helper's verdict is a parameter (`ScaleOutcome`), and the descriptor's validity is a precondition (`Numeric.Valid`).
- `klu_z_utsolve` and `klu_z_ltsolve` are not part of this model. They are function parameters that map the block's slice of the workspace to a slice of the same length, and nothing is proved about what they compute.
- The macro that locates a column inside a block buffer is not part of this model: each column's row indices and value offset in its block buffer are a fixed `Column` layout.
- Debug-only assertions and `PRINTF` output are diagnostics and are left out.
- Memory management is left out: the `nrealloc` counter is only reset, and an allocation failure for Rs is not modelled.
- `conj_solve` is accepted and ignored, as in the source. No conjugate path exists.
- KluTsolve.CorrectRow: the four arms for chunk widths 1 to 4 are one loop over c < nr, so the specialised code for each width is not modelled separately. For nr = 1 the source updates X[k] in place while summing. That matches the loop because every Offi[p] lies before the block.
- KluTsolve.Tsolve: requires, when the arguments pass the checks, that the descriptors come from a factorization of the matrix the symbolic object describes, that Xwork holds 4 n entries, and that the nrhs columns from B_offset fit in B. Buffers that are too short would raise an index exception in Java, and that is not modelled.
- KluRefactor.Refactor: requires a valid descriptor and, unless the scaling helper rejects the matrix, a well-formed column-compressed matrix. The Java index exception for a negative workspace slot (entries of an earlier block once the cursor is capped) is modelled as the `IndexOutOfBounds` outcome.
- TsolveProps.OutAt, OutPrefixHit and OtherRowMiss take as a hypothesis that Pnum is one-to-one, as a factorization produces it. ColumnProps.WorkspaceClearAfterRun and the lemmas under it take as a hypothesis that every column's pattern is closed under the elimination (`PatternClosed`), as the symbolic analysis provides.
- Integer overflow of indices is not modelled: Dafny integers are unbounded.
- The column independence of a chunk is proved step by step: permute-in (PermInColumn), the correction (CorrectedColumn) and the singleton division (DivideRowColumn). It is not proved for the whole sweep, because the block solves are parameters, and it is not proved for permute-out.
- KluRefactor.RunEngine: the scaled branch's update reads L at the column's offset plus p, not at slot p as line 438 is written (see Findings).
- RefactorProps.SingletonPivotRecord: a singleton block's pivot is not tested for zero, as in the source, so a zero singleton pivot does not make the status SINGULAR.

## Findings

| source | as written | input that shows it | evidently intended | confidence | as-written member | corrected member |
|---|---|---|---|---|---|---|
| src/main/java/edu/ufl/cise/klu/tdcomplex/DZklu_refactor.java:438 | the scaled branch's update along column j of L reads `Lx.get(p)`, slot p of the block buffer | a column of L with the single row 1 whose value 5 sits at offset 1 of the buffer [0, 5], ujk = 1, X = [0, 0]: the intended update gives X[1] = -5, the read as written leaves X[1] = 0 | `Lx.get(Lx_offset[0] + p)`, as the unscaled branch reads it at line 283 | not executed | ScaledUpdate.AsWrittenDiverges | ScaledUpdate.MultSubSubtractsColumn |
