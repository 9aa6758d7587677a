# gammalib core, modelled in Dafny

This project models six pieces of the gamma-ray astronomy library gammalib.
Each piece is stated and proved in Dafny:

- **The binned Poisson objective** (`DataOptimizer`, optimizer.dfy). It is the
  value, gradient and curvature that `GData::optimizer::eval` accumulates over
  the data bins.
  - Each bin is an abstract triple: its counts, its model value and its model
    gradient.
  - The sparse curvature matrix is an `array2<real>`.
  - `log` is an input function.
  - The sums over all bins are specification functions (`ValueOf`, `GradAt`,
    `CovarAt`). The imperative bin loop is proved to compute exactly these sums.
- **The model registry** (`ModelRegistry`, registry.dfy). It is a
  process-wide, append-only table of (type name, prototype) pairs, shared by
  every registry object. Registration copies the table into arrays one longer.
  `alloc` is a first-match search.
- **The CTA On/Off observation** (`CtaOnOff`, onoff.dfy) covers:
  - reading the six file parameters from XML and writing them back;
  - splitting events between the on and off spectra;
  - computing the ARF and the RMF from the instrument response.

  File loads, region membership and the response functions are inputs.
- **The FITS string column** (`FitsStringColumn`, stringcol.dfy) covers:
  - the two format strings;
  - the transfer buffer (`array2<char>` rows of `width + 1` characters);
  - fetching, saving, releasing and copying the cell strings;
  - the NUL value.

  C-string semantics (`strncpy`, reading up to the first NUL) are spelled out.
- **The PowerLaw2 spectral model** (`SpectralPlaw2`, plaw2.dfy) covers:
  - the four default parameters;
  - the XML read/write validators;
  - `eval` and `eval_gradients`.

  `pow` and `log` are inputs, and so are the parameter class's own XML read
  and write.
- **The observation exception messages** (`ObsExceptions`, exceptions.dfy).
  This module proves what can be read back from each message.

`Tools` (tools.dfy) holds the integer-to-string rendering `str` and its parser,
and C-string reading. `Xml` (xml.dfy) holds the part of the XML element API
that the readers and writers rely on: children counts, the i-th child of a
given name, and attributes.

Four places where the code does something other than what it evidently
means are modelled twice, as written and as intended. They are listed under
"## Findings".

## Model

| member | source | states |
|---|---|---|
| DataOptimizer.ActiveIndicesSpec | src/obs/GData_optimizer.cpp:199-205 | the index list holds exactly the parameters with a nonzero derivative, strictly increasing, at most `npars` of them |
| DataOptimizer.CollectActive | src/obs/GData_optimizer.cpp:199-205 | the filter loop leaves `inx[0..ndev)` equal to the active index list |
| DataOptimizer.ActiveIndexList | src/obs/GData_optimizer.cpp:199-205 | every listed index is in range and has a nonzero derivative; the list is strictly increasing |
| DataOptimizer.InactiveOutsideList | src/obs/GData_optimizer.cpp:199-205 | an index missing from the list has a zero derivative |
| DataOptimizer.EmptyModelBinSkipped | src/obs/GData_optimizer.cpp:194-196 | a bin whose model is <= 0 changes neither the value, the gradient nor the curvature |
| DataOptimizer.ValueStep | src/obs/GData_optimizer.cpp:207-208 | every bin that is not skipped subtracts `data*log(model) - model` from the value, also when no derivative is nonzero |
| DataOptimizer.InactiveUnchanged | src/obs/GData_optimizer.cpp:199-251 | gradient entry j and curvature row and column j are untouched by a bin in which j is not active |
| DataOptimizer.ZeroCountsBin | src/obs/GData_optimizer.cpp:246-251 | a bin with counts <= 0 adds g_j to the gradient (the n = 0 value of (1 - n/m) g_j) and nothing to the curvature |
| DataOptimizer.CovarSymmetric | src/obs/GData_optimizer.cpp:226-243 | the accumulated curvature matrix is symmetric over the reals |
| DataOptimizer.ValueAdditive | src/obs/GData_optimizer.cpp:183-253 | the value of a concatenation of bin lists is the sum of their values |
| DataOptimizer.CovarAdditive | src/obs/GData_optimizer.cpp:183-253 | the curvature of a concatenation of bin lists is the sum of their curvatures |
| DataOptimizer.AddCol | src/obs/GData_optimizer.cpp:242 | `add_col` adds `values[k]` into row `inx[k]` of column `jpar` and leaves every other column alone |
| DataOptimizer.ColumnOfActive | src/obs/GData_optimizer.cpp:237-242 | a column built over the active list puts w[r] exactly in the active rows r and 0 elsewhere |
| DataOptimizer.AddCurvatureColumn | src/obs/GData_optimizer.cpp:231-242 | one column of the curvature update adds the bin's term to column `jpar` only |
| DataOptimizer.AddBinColumn | src/obs/GData_optimizer.cpp:226-243 | one pass of the column loop updates gradient entry `jpar` and curvature column `jpar` only |
| DataOptimizer.AddCountsBin | src/obs/GData_optimizer.cpp:218-244 | a bin with counts adds its gradient and curvature terms to every entry, zero outside the active set |
| DataOptimizer.AddEmptyBin | src/obs/GData_optimizer.cpp:247-251 | a bin without counts adds its gradient term to every entry, zero outside the active set |
| DataOptimizer.AddBin | src/obs/GData_optimizer.cpp:186-251 | one pass of the bin loop adds exactly the bin's value, gradient and curvature terms |
| DataOptimizer.Optimizer.Eval | src/obs/GData_optimizer.cpp:146-273 | with npars < 1 nothing changes; otherwise value, gradient and curvature are rebuilt from zero and equal the sums over all bins |
| DataOptimizer.Optimizer.constructor | src/obs/GData_optimizer.cpp:285-294 | `init_members`: value 0, no gradient, no curvature |
| DataOptimizer.Optimizer.FreeMembers | src/obs/GData_optimizer.cpp:324-336 | gradient and curvature become null and the value stays |
| DataOptimizer.Optimizer.CopyMembers | src/obs/GData_optimizer.cpp:303-318 | the value is copied; gradient and curvature are copied into fresh storage when present |
| ModelRegistry.FirstIndex | src/model/GModelRegistry.cpp:204-208 | None exactly when the name is absent; otherwise the first index that holds the name |
| ModelRegistry.FirstIndexUnique | src/model/GModelRegistry.cpp:204-208 | the first occurrence is unique |
| ModelRegistry.FirstIndexAppend | src/model/GModelRegistry.cpp:84-106 | appending a name does not change where an existing name is found; a new name is found at the end |
| ModelRegistry.Table.constructor | src/model/GModelRegistry.cpp:27-29 | the static table starts empty: no entries, no names, no models |
| ModelRegistry.Registry.Register | src/model/GModelRegistry.cpp:72-118 | the table grows by one, holding (type name, model) at the end, with every earlier entry in place |
| ModelRegistry.Registry.constructor | src/model/GModelRegistry.cpp:51-66 | the void constructor leaves the shared table as it is |
| ModelRegistry.Registry.Copy | src/model/GModelRegistry.cpp:126-136 | the copy shares the same table |
| ModelRegistry.Registry.Assign | src/model/GModelRegistry.cpp:163-181 | assignment leaves the table unchanged |
| ModelRegistry.Registry.Alloc | src/model/GModelRegistry.cpp:198-213 | the prototype at the first entry with that name, or None when no entry has it |
| ModelRegistry.Registry.Name | src/model/GModelRegistry.cpp:224-234 | the name at an index in [0, size()-1]; an out-of-range error naming the index and the bounds otherwise |
| ModelRegistry.LaterDuplicateNeverFound | src/model/GModelRegistry.cpp:84-95 | registering a duplicate name leaves what `alloc` finds unchanged; a new name becomes allocatable |
| CtaOnOff.SlotMeansName | inst/cta/src/GCTAOnOffObservation.cpp:224-300 | a parameter counts towards `npar[k]` exactly when it carries the k-th name |
| CtaOnOff.ParamStep | inst/cta/src/GCTAOnOffObservation.cpp:218-302 | reading one more parameter raises exactly its own counter |
| CtaOnOff.SlotCountOne | inst/cta/src/GCTAOnOffObservation.cpp:218-305 | a counter of one means exactly one parameter carries that name |
| CtaOnOff.SlotCountZero | inst/cta/src/GCTAOnOffObservation.cpp:218-305 | a counter of zero means no parameter carries that name |
| CtaOnOff.LastFileOfUnique | inst/cta/src/GCTAOnOffObservation.cpp:225-300 | the file loaded for a name occurring once is the file of that parameter |
| CtaOnOff.LoadAllAsWrittenFiles | inst/cta/src/GCTAOnOffObservation.cpp:218-302 | as written, the on regions come from the last Regions_on or Regions_off parameter and the off regions are never loaded |
| CtaOnOff.LoadAllFiles | inst/cta/src/GCTAOnOffObservation.cpp:218-302 | as intended, each member is loaded from the last parameter with its own name |
| CtaOnOff.ReadAsWrittenDropsOffRegions | inst/cta/src/GCTAOnOffObservation.cpp:264-274 | as written, reading always leaves the off regions cleared |
| CtaOnOff.ReadLoadsNamedFiles | inst/cta/src/GCTAOnOffObservation.cpp:264-274 | as intended, the off regions come from the file of the Regions_off parameter |
| CtaOnOff.SlotCountInOrder | inst/cta/src/GCTAOnOffObservation.cpp:323-330 | in a list holding the names in order, each prefix counts each name it contains once |
| CtaOnOff.DefaultParams | inst/cta/src/GCTAOnOffObservation.cpp:323-330 | six childless "parameter" elements carrying the six names in order |
| CtaOnOff.DefaultParamsOnce | inst/cta/src/GCTAOnOffObservation.cpp:323-330 | the appended parameters carry each name exactly once |
| CtaOnOff.PreparedEmpty | inst/cta/src/GCTAOnOffObservation.cpp:322-336 | writing into an element with no children appends the six parameters, so the count check passes |
| CtaOnOff.WriteParam | inst/cta/src/GCTAOnOffObservation.cpp:343-379 | a recognised parameter gets the file name of its member and keeps its name; any other is unchanged |
| CtaOnOff.WriteParams | inst/cta/src/GCTAOnOffObservation.cpp:340-380 | the write loop updates each parameter by its own name |
| CtaOnOff.WriteParamsCounts | inst/cta/src/GCTAOnOffObservation.cpp:340-380 | writing keeps every name, so every counter is unchanged |
| CtaOnOff.WrittenFile | inst/cta/src/GCTAOnOffObservation.cpp:340-380 | after writing, the parameter for member k carries member k's file name |
| CtaOnOff.WriteThenRead | inst/cta/src/GCTAOnOffObservation.cpp:218-302 | reading (as intended) what was written restores all six members when loading a file yields what was saved under it |
| CtaOnOff.CellsStep | inst/cta/src/GCTAOnOffObservation.cpp:471-478 | writing cell (i, j) extends the set of cells written so far by that cell |
| CtaOnOff.CellsRowDone | inst/cta/src/GCTAOnOffObservation.cpp:471-478 | finishing a row moves on to the next row |
| CtaOnOff.CellsComplete | inst/cta/src/GCTAOnOffObservation.cpp:471-478 | leaving the row loop means every cell of the matrix is written |
| CtaOnOff.RmfRowsConstantAsWritten | inst/cta/src/GCTAOnOffObservation.cpp:473-476 | as written, every cell of a row gets the same value |
| CtaOnOff.RmfCellIntended | inst/cta/src/GCTAOnOffObservation.cpp:471-477 | as intended, cell (i, j) is `edisp(ereco_i, etrue_j)` |
| CtaOnOff.RmfAsWrittenDiffers | inst/cta/src/GCTAOnOffObservation.cpp:474 | for one measured bin and two true bins, cell (0, 1) differs between the two versions |
| CtaOnOff.FillPartition | inst/cta/src/GCTAOnOffObservation.cpp:404-415 | the on, off and dropped energies together are exactly the event energies, each event in one place only |
| CtaOnOff.OnRegionsWin | inst/cta/src/GCTAOnOffObservation.cpp:409-414 | an event inside the on regions goes to the on spectrum only, even if it is in the off regions too |
| CtaOnOff.OnOffObservation.constructor | inst/cta/src/GCTAOnOffObservation.cpp:56-67 | every member is cleared and the instrument is "CTA" |
| CtaOnOff.OnOffObservation.FromEbounds | inst/cta/src/GCTAOnOffObservation.cpp:83-97 | both spectra and the ARF take the energy bins, the ARF with one zero value per bin and no file; the regions are the given ones |
| CtaOnOff.OnOffObservation.Clear | inst/cta/src/GCTAOnOffObservation.cpp:156-166 | every member is cleared and the instrument is "CTA" |
| CtaOnOff.OnOffObservation.CopyMembers | inst/cta/src/GCTAOnOffObservation.cpp:516-531 | all nine members are copied |
| CtaOnOff.OnOffObservation.LoadParameterAsWritten | inst/cta/src/GCTAOnOffObservation.cpp:222-300 | one parameter is loaded as the if-chain does, Regions_off into the on regions |
| CtaOnOff.OnOffObservation.LoadParameter | inst/cta/src/GCTAOnOffObservation.cpp:222-300 | one parameter is loaded into the member its name selects |
| CtaOnOff.OnOffObservation.LoadParametersAsWritten | inst/cta/src/GCTAOnOffObservation.cpp:217-302 | the members are the fold of the as-written loads; counter k counts the parameters named k |
| CtaOnOff.OnOffObservation.LoadParameters | inst/cta/src/GCTAOnOffObservation.cpp:217-302 | the members are the fold of the intended loads; counter k counts the parameters named k |
| CtaOnOff.OnOffObservation.ReadAsWritten | inst/cta/src/GCTAOnOffObservation.cpp:200-313 | parnum error unless 6/6; otherwise success exactly when each name occurs once; the off regions stay cleared |
| CtaOnOff.OnOffObservation.Read | inst/cta/src/GCTAOnOffObservation.cpp:200-313 | as above, with each member loaded from its own parameter |
| CtaOnOff.OnOffObservation.WriteParameter | inst/cta/src/GCTAOnOffObservation.cpp:343-379 | one parameter is written as `WriteParam`, returning the counter its name selects |
| CtaOnOff.OnOffObservation.WriteParametersAsWritten | inst/cta/src/GCTAOnOffObservation.cpp:338-380 | file names are written as intended, but counters 1..5 stay zero |
| CtaOnOff.OnOffObservation.WriteParameters | inst/cta/src/GCTAOnOffObservation.cpp:338-380 | file names are written; counter k counts the parameters named k |
| CtaOnOff.OnOffObservation.WriteAsWritten | inst/cta/src/GCTAOnOffObservation.cpp:320-390 | `write` always ends in an error: parnum if not 6/6, parnames otherwise |
| CtaOnOff.OnOffObservation.AppendDefaults | inst/cta/src/GCTAOnOffObservation.cpp:322-330 | a childless element gets exactly the six default parameters; any other element is unchanged |
| CtaOnOff.OnOffObservation.Write | inst/cta/src/GCTAOnOffObservation.cpp:320-390 | parnum error unless 6/6; otherwise the files are written and it succeeds exactly when each name occurs once |
| CtaOnOff.OnOffObservation.WriteEmptySucceeds | inst/cta/src/GCTAOnOffObservation.cpp:322-330 | (as intended) writing into an empty element succeeds and fills the six default parameters |
| CtaOnOff.OnOffObservation.Fill | inst/cta/src/GCTAOnOffObservation.cpp:397-419 | no event list gives the invalid-argument error; otherwise each spectrum gets the energies of its own events, in order |
| CtaOnOff.OnOffObservation.ComputeArf | inst/cta/src/GCTAOnOffObservation.cpp:441-457 | each ARF bin holds the effective area at its log-mean energy; the bins are unchanged |
| CtaOnOff.OnOffObservation.ComputeRmfAsWritten | inst/cta/src/GCTAOnOffObservation.cpp:464-482 | out-of-range error exactly when there are fewer true bins than measured bins (and at least one); the cells of the rows reached use true bin i |
| CtaOnOff.OnOffObservation.ComputeRmf | inst/cta/src/GCTAOnOffObservation.cpp:464-482 | every cell (i, j) holds `edisp(ereco_i, etrue_j)` |
| CtaOnOff.OnOffObservation.ComputeResponseAsWritten | inst/cta/src/GCTAOnOffObservation.cpp:425-434 | as written: each ARF bin holds aeff at its log-mean energy; then `compute_rmf` as written, failing exactly when 0 < true bins < measured bins, with the ARF already computed |
| CtaOnOff.OnOffObservation.ComputeResponse | inst/cta/src/GCTAOnOffObservation.cpp:425-434 | as intended: each ARF bin holds aeff at its log-mean energy, and every RMF cell (i, j) holds edisp(ereco_i, etrue_j) |
| FitsStringColumn.AsciiFormat | src/fits/GFitsTableStringCol.cpp:402-415 | "A" followed by a text that parses back to the width |
| FitsStringColumn.BinaryFormat | src/fits/GFitsTableStringCol.cpp:421-438 | the repeat, then "A", then the width only when repeat > width; each field parses back |
| FitsStringColumn.BinaryFormatInjective | src/fits/GFitsTableStringCol.cpp:421-438 | the format determines the repeat, whether a width was added, and then the width |
| FitsStringColumn.Strncpy | src/fits/GFitsTableStringCol.cpp:377 | `strncpy` copies up to the first NUL and pads to n with NULs |
| FitsStringColumn.StrncpyReadBack | src/fits/GFitsTableStringCol.cpp:540-542 | reading a `strncpy`'d row back as a C string gives the text cut at its first NUL and at the width |
| FitsStringColumn.FitIdempotent | src/fits/GFitsTableStringCol.cpp:377 | cutting a cell to fit twice is the same as once |
| FitsStringColumn.FitOfShort | src/fits/GFitsTableStringCol.cpp:377 | a cell that already fits and has no NUL is unchanged |
| FitsStringColumn.SaveFetchRoundTrip | src/fits/GFitsTableStringCol.cpp:367-387 | a saved row reads back as the cell cut to fit; a cell that fits reads back unchanged |
| FitsStringColumn.NulvalReadBack | src/fits/GFitsTableStringCol.cpp:490-493 | the NUL value reads back as the value cut to fit |
| FitsStringColumn.StringColumn.constructor | src/fits/GFitsTableStringCol.cpp:277-287 | no data, no buffer, no NUL value |
| FitsStringColumn.StringColumn.FreeBuffer | src/fits/GFitsTableStringCol.cpp:586-599 | the buffer is null afterwards, so a second call changes nothing |
| FitsStringColumn.StringColumn.AllocBuffer | src/fits/GFitsTableStringCol.cpp:559-578 | for size > 0, a fresh size x (width+1) buffer of NULs; otherwise the buffer is left as it is |
| FitsStringColumn.StringColumn.AllocData | src/fits/GFitsTableStringCol.cpp:444-458 | for size > 0, fresh data of size empty strings; otherwise null |
| FitsStringColumn.StringColumn.LoadColumn | src/fits/GFitsTableStringCol.cpp:537 | the data are allocated and each buffer row holds its file cell, `strncpy`'d, with a final NUL |
| FitsStringColumn.StringColumn.ExtractRows | src/fits/GFitsTableStringCol.cpp:540-543 | each cell becomes the C string of its buffer row |
| FitsStringColumn.StringColumn.FetchData | src/fits/GFitsTableStringCol.cpp:525-550 | size = number * length; each cell holds its file cell cut to fit; the buffer ends freed |
| FitsStringColumn.StringColumn.ReleaseData | src/fits/GFitsTableStringCol.cpp:464-475 | no data and size 0 |
| FitsStringColumn.StringColumn.NewCStrBuffer | src/fits/GFitsTableStringCol.cpp:491-492 | a fresh width+1 buffer whose first width characters are `strncpy` of the text |
| FitsStringColumn.StringColumn.AllocNulval | src/fits/GFitsTableStringCol.cpp:481-497 | an empty value leaves no NUL value; otherwise a fresh width+1 buffer holding `strncpy(value, width)` |
| FitsStringColumn.StringColumn.InitData | src/fits/GFitsTableStringCol.cpp:503-513 | the first size cells become empty, the rest are unchanged; nothing happens without data |
| FitsStringColumn.StringColumn.FreeMembers | src/fits/GFitsTableStringCol.cpp:337-355 | no data, no NUL value, size 0, no buffer |
| FitsStringColumn.StringColumn.Save | src/fits/GFitsTableStringCol.cpp:367-387 | row i handed to the file is `strncpy(data[i], width)` plus a NUL; the buffer ends freed |
| FitsStringColumn.StringColumn.CopyMembers | src/fits/GFitsTableStringCol.cpp:300-331 | the other column is fetched from its file when it has no data and is otherwise left as it was; size, a fresh copy of its cells (its original cells when it had data) and a fresh NUL-value copy are taken over |
| FitsStringColumn.StringColumn.CopyData | src/fits/GFitsTableStringCol.cpp:312-316 | fresh data holding the same cells |
| SpectralPlaw2.Defaults | src/model/GModelSpectralPlaw2.cpp:505-551 | Integral 1 in [0, 10] and Index -2 in [-5, -0.1], both free; LowerLimit 100 and UpperLimit 500000, both fixed; every value inside its range |
| SpectralPlaw2.SlotOf | src/model/GModelSpectralPlaw2.cpp:355-376 | a name selects counter k exactly when it is the k-th of the four names; any other name selects none |
| SpectralPlaw2.ParamStep | src/model/GModelSpectralPlaw2.cpp:349-378 | reading one more parameter raises exactly its own counter |
| SpectralPlaw2.ReadAll | src/model/GModelSpectralPlaw2.cpp:349-378 | the read loop always yields four parameters |
| SpectralPlaw2.ReadAllSlot | src/model/GModelSpectralPlaw2.cpp:349-378 | a parameter whose name is absent keeps its value; one whose name occurs once is read from that element |
| SpectralPlaw2.DefaultParams | src/model/GModelSpectralPlaw2.cpp:419-424 | four childless "parameter" elements carrying the four names in order |
| SpectralPlaw2.Prepared | src/model/GModelSpectralPlaw2.cpp:409-424 | an empty type becomes PowerLaw2; a PowerLaw2 element with no children gets the four parameters |
| SpectralPlaw2.WriteParam | src/model/GModelSpectralPlaw2.cpp:436-460 | a recognised parameter gets the attributes of its own parameter; any other is unchanged |
| SpectralPlaw2.WriteParams | src/model/GModelSpectralPlaw2.cpp:433-462 | the write loop updates each parameter element by its own name |
| SpectralPlaw2.DefaultParamsOnce | src/model/GModelSpectralPlaw2.cpp:419-424 | the appended parameters carry each name exactly once |
| SpectralPlaw2.PreparedEmpty | src/model/GModelSpectralPlaw2.cpp:419-429 | writing into an element with no children appends the four parameters, so the count check passes |
| SpectralPlaw2.WriteParamsCounts | src/model/GModelSpectralPlaw2.cpp:433-462 | writing attributes other than "name" keeps every counter |
| SpectralPlaw2.WriteThenRead | src/model/GModelSpectralPlaw2.cpp:349-378 | reading what was written restores all four parameters, whatever the reader held before, when each of the four, read from its prior state, reads back the attributes written for it |
| SpectralPlaw2.WriteThenReadSlot | src/model/GModelSpectralPlaw2.cpp:349-378 | the same for the one parameter whose name occurs once, under the hypothesis for that parameter alone |
| SpectralPlaw2.Norm | src/model/GModelSpectralPlaw2.cpp:221-224 | the normalisation times the integral of E^index over [emin, emax] is one; the log form is used exactly when index + 1 is zero |
| SpectralPlaw2.Value | src/model/GModelSpectralPlaw2.cpp:221-226 | the value times the integral of E^index over [emin, emax] is integral * E^index |
| SpectralPlaw2.ValueLinearInIntegral | src/model/GModelSpectralPlaw2.cpp:253 | the value is proportional to the integral value |
| SpectralPlaw2.PowerLaw2.constructor | src/model/GModelSpectralPlaw2.cpp:48-55 | the four default parameters |
| SpectralPlaw2.PowerLaw2.FromValues | src/model/GModelSpectralPlaw2.cpp:66-79 | the defaults with the given integral and index values |
| SpectralPlaw2.PowerLaw2.CopyMembers | src/model/GModelSpectralPlaw2.cpp:559-569 | the four parameters are copied |
| SpectralPlaw2.PowerLaw2.Eval | src/model/GModelSpectralPlaw2.cpp:218-230 | the value times the integral of E^index over [emin, emax] is integral * E^index |
| SpectralPlaw2.IndexGradient | src/model/GModelSpectralPlaw2.cpp:288-292 | (as intended) the closed form equals value times the derivative of log I with respect to the index, times the index scale; that derivative is log E minus the integral of log(E) E^index over the integral of E^index |
| SpectralPlaw2.IndexGradientAsWrittenDiffers | src/model/GModelSpectralPlaw2.cpp:290-292 | with integral 1, index 0, emin 1, emax 2 and E = 1 the formula as written gives 1 + 2 log 2, the derivative 1 - 2 log 2 |
| SpectralPlaw2.PowerLaw2.EvalGradientsAsWritten | src/model/GModelSpectralPlaw2.cpp:264-323 | same value as `eval`; the Integral gradient is value / integral value and the Index gradient the formula as written, each zero when the parameter is fixed; the limit gradients are zero; only gradients change |
| SpectralPlaw2.PowerLaw2.EvalGradients | src/model/GModelSpectralPlaw2.cpp:264-323 | as above, with the Index gradient the derivative of the value with respect to the index value (IndexGradient); the Integral gradient times its value is the function value |
| SpectralPlaw2.PowerLaw2.ReadParameter | src/model/GModelSpectralPlaw2.cpp:352-376 | one element is read into the parameter its name selects |
| SpectralPlaw2.PowerLaw2.ReadParameters | src/model/GModelSpectralPlaw2.cpp:348-378 | the parameters are the fold of the reads; counter k counts the elements named k |
| SpectralPlaw2.PowerLaw2.Read | src/model/GModelSpectralPlaw2.cpp:340-388 | parnum error (and nothing read) unless 4/4; otherwise success exactly when each name occurs once, with parameters read either way |
| SpectralPlaw2.PowerLaw2.WriteParameter | src/model/GModelSpectralPlaw2.cpp:436-460 | one element is written as `WriteParam`, returning the counter its name selects |
| SpectralPlaw2.PowerLaw2.WriteParameters | src/model/GModelSpectralPlaw2.cpp:432-462 | attributes are written; counter k counts the elements named k |
| SpectralPlaw2.PowerLaw2.AppendDefaultParams | src/model/GModelSpectralPlaw2.cpp:419-424 | a childless element gets exactly the four default parameter elements; any other element is unchanged |
| SpectralPlaw2.PowerLaw2.Write | src/model/GModelSpectralPlaw2.cpp:407-472 | a type other than "" or PowerLaw2 is an error; parnum error unless 4/4 after preparing; otherwise the element keeps its name and attributes and its four children, the parameters are written, and it succeeds exactly when each name occurs once |
| SpectralPlaw2.PowerLaw2.WriteEmptySucceeds | src/model/GModelSpectralPlaw2.cpp:409-424 | writing into an empty element succeeds and fills the four default parameters |
| ObsExceptions.NewGradientParMismatch | src/obs/GException_obs.cpp:31-37 | a gradient mismatch exception keeping its origin |
| ObsExceptions.NewCaldbNotFound | src/obs/GException_obs.cpp:48-53 | a caldb exception keeping its origin |
| ObsExceptions.NewRspInvalidType | src/obs/GException_obs.cpp:64-68 | a response type exception keeping its origin |
| ObsExceptions.NewGtiInvalid | src/obs/GException_obs.cpp:81-85 | a GTI exception keeping its origin |
| ObsExceptions.GradientParMismatchInjective | src/obs/GException_obs.cpp:31-37 | origin, vector size and parameter count can be read back from the exception |
| ObsExceptions.RspInvalidTypeInjective | src/obs/GException_obs.cpp:64-68 | origin and response type can be read back |
| ObsExceptions.GtiInvalidIgnoresGti | src/obs/GException_obs.cpp:81-85 | the GTI argument does not affect the exception |
| ObsExceptions.GtiInvalidInjective | src/obs/GException_obs.cpp:81-85 | origin and extra message can be read back |
| ObsExceptions.CaldbNotFoundInjective | src/obs/GException_obs.cpp:48-53 | the origin can be read back; with the database name fixed the message can be, and vice versa |
| ObsExceptions.CaldbNotFoundAmbiguous | src/obs/GException_obs.cpp:48-53 | database name and message together cannot always be read back |

## Left out

- Timing and console output in `GData::optimizer::eval`, the registry's debug output, and every `print` / `operator<<`: these are output only.
- The dummy model and gradient in `GData::optimizer::eval`. Each bin's counts, model value and gradient are inputs instead.
- `GSparseMatrix` is not part of this model. The curvature is a dense `array2<real>`.
  - `add_col(values, inx, ndev, jpar)` is assumed to add `values[k]` into entry (`inx[k]`, `jpar`).
  - `stack_init` / `stack_destroy` only stage storage, and are left out.
- Floating-point rounding: everything is over `real`. `log` and `pow` are uninterpreted input functions.
- DataOptimizer.Optimizer.Eval: the bin loop takes the bins as a list, and the data container's iterator is not modelled. The working arrays `inx` and `values` are allocated inside the method and not freed explicitly.
- The CFITSIO transfer `load_column` / `save_column` is foreign file I/O.
  - Loading is represented by the cell texts of the file (`cells`), copied into the buffer `strncpy`-style with a final NUL, after the data are allocated.
  - Saving is represented by the rows handed to the file.
  - The lazy `fetch_data` in the element accessors is not modelled.
- The `GFitsTableCol` base class (name, `m_type`, column number, offset, the element accessors `string`, `real`, `integer`, `nullval`) is not part of this model. `m_type` is not represented.
- The G_SMALL_MEMORY release in `copy_members` is a compile-time option and is not modelled.
- ModelRegistry.Registry.Name: always range-checks the index; the source raises the out-of-range error only when compiled with G_RANGE_CHECK, and the unchecked build is not modelled.
- FitsStringColumn.StringColumn.FreeBuffer: the per-row `delete` loop is memory management with no visible effect, so only the final null buffer is modelled.
- FitsStringColumn.StringColumn.AllocNulval: character `width` of the new NUL value is left uninitialised by the source when the value has `width` or more characters, so the contract only speaks of the first `width` characters.
- FitsStringColumn.StringColumn.CopyMembers: requires the other column's data to have `size` cells. The source keeps this as a class invariant.
- FitsStringColumn.StringColumn.InitData: requires the data, when present, to have at least `size` cells. The source keeps this as a class invariant.
- FitsStringColumn.StringColumn.Save: requires data whenever the size is positive. The source dereferences the data unconditionally.
- CtaOnOff: the `GPha`, `GSkyRegions`, `GArf` and `GRmf` classes are not part of this model.
  - Loading a file is the `Store` input; region membership is the `contains` input; the response is the `aeff` and `edisp` inputs.
  - Filling a spectrum appends the event energy; `GPha::fill`'s binning is not modelled.
  - The RMF is a map from (measured bin, true bin) to value, with no fixed size.
- CtaOnOff.OnOffObservation.ComputeArf: requires the ARF to hold one value per energy bin, which `GArf` keeps as its own invariant.
- CtaOnOff.OnOffObservation.ComputeRmfAsWritten: models the out-of-range `elogmean(i)` as an `EnergyIndexOutOfRange` error. This assumes `GEbounds` checks its index, which the source shown does not include.
- CtaOnOff: the observation and event-list types are not modelled; `fill` takes the event list as an optional list of events.
- SpectralPlaw2: `GModelPar` is not part of this model.
  - Reading a parameter from its element is the `readPar` input; writing one is the `writeAttrs` input.
  - The physical value of a parameter is taken as value times scale, as described at src/model/GModelSpectralPlaw2.cpp:243-250.
  - Any clamping of values to their range is not modelled.
- SpectralPlaw2.PowerLaw2.Eval: requires the two limits to give different antiderivatives (nonzero denominator). Otherwise the source divides by zero and yields inf or NaN, which `real` cannot express.
- SpectralPlaw2.PowerLaw2.EvalGradientsAsWritten: also requires a nonzero Integral value when Integral is free, for the same reason.
- SpectralPlaw2.PowerLaw2.EvalGradients: also requires a nonzero Integral value when Integral is free, for the same reason.
- SpectralPlaw2.IndexGradient: derivatives are not part of the model, because there is no calculus over `real` here. The derivative of log I is stated as its standard form: log E minus the integral of log(E) E^index over the integral of E^index. `PrimitiveDIndex` is written out as the antiderivative of log(E) E^index; it is not derived.
- SpectralPlaw2: the XML constructor (`init_members` followed by `read`) and `clear` are not modelled separately. They are the constructor followed by `Read`.
- Str: integers are rendered in decimal with a leading minus sign. The library's `str` is not part of this model.

## Findings

| source | as written | input that shows it | evidently intended | confidence | as-written member | corrected member |
|---|---|---|---|---|---|---|
| inst/cta/src/GCTAOnOffObservation.cpp:264-274 | a Regions_off parameter is loaded into the on regions (`m_on_regions.load`) | any valid element with six distinct names: after `read` the off regions are still cleared | load it into the off regions | high, not executed | CtaOnOff.ReadAsWrittenDropsOffRegions | CtaOnOff.ReadLoadsNamedFiles |
| inst/cta/src/GCTAOnOffObservation.cpp:346-382 | every recognised name increments `npar[0]`, so counters 1..5 stay zero and the final check always fails | an element with no children: `write` appends six valid parameters and still throws `xml_invalid_parnames` | increment `npar[k]` for the k-th name | high, not executed | CtaOnOff.OnOffObservation.WriteAsWritten | CtaOnOff.OnOffObservation.WriteEmptySucceeds |
| inst/cta/src/GCTAOnOffObservation.cpp:474 | the true energy of cell (i, j) is `true_ebounds.elogmean(i)`, the row index | one measured bin and true log-mean energies [1, 2] with `edisp(r, t) = t`: cell (0, 1) is 1, not 2 | `true_ebounds.elogmean(j)` | high, not executed | CtaOnOff.RmfAsWrittenDiffers | CtaOnOff.RmfCellIntended |
| src/model/GModelSpectralPlaw2.cpp:290-311 | the Index gradient adds (log emax emax^gamma - log emin emin^gamma) / (emax^gamma - emin^gamma), and at gamma = 0 it is value log E i_s | integral 1, index 0, emin 1, emax 2, E = 1: the formula gives 1 + 2 log 2, about 2.39, while the derivative of the value is 1 - 2 log 2, about -0.39 | subtract that term; at gamma = 0 use value (log E - (log emin + log emax)/2) i_s | high, not executed | SpectralPlaw2.IndexGradientAsWrittenDiffers | SpectralPlaw2.IndexGradient |
