# Vehicle registry: certificate eligibility and reconciliation

This project models the core of a SharePoint web part that registers
transport vehicles and their compliance certificates. It covers four
things:

- which certificates a vehicle needs, decided from its unit type, its
  temperature regime and its bonus flag;
- how the documents section validates the dates entered against windows
  counted back from today;
- how a save turns into an ordered series of awaited remote calls, and
  what the form looks like after the calls succeed or one of them throws;
- how the certificates service keeps one list, indexed by plate and
  certificate kind, in step with those calls.

The list operations are:

- upsert the latest record of a plate and kind;
- read back the latest record per kind;
- delete a plate's records in batches of ten;
- replace a record's attachment.

Modules, one per file:

| file | module | what it holds |
|---|---|---|
| `wrappers.dfy` | `Wrappers` | `Option` and `Result` |
| `text.dfy` | `Text` | JavaScript `toLowerCase`, `toUpperCase`, `normalize("NFD")` with the combining-mark strip, `trim`, the `norm` helper, string order for `sort()`, decimal rendering |
| `odata.dfy` | `OData` | the `safe` quote escape of filter literals and its inverse |
| `dates.dfy` | `Dates` | calendar dates, the `setMonth(getMonth() - n)` month arithmetic, day order |
| `cert_store.dfy` | `CertStore` | the certificates list as a class: records by `Id`, filtered queries ordered by `Id`, add, update that merges columns, delete, attachments |
| `certificados_spec.dfy` | `CertificadosSpec` | what each service operation does to the list, as functions of the list, and their properties |
| `requests.dfy` | `CertificadosRequests` | each service operation as its separate list requests, what a failure part-way leaves, and the repair by running it again |
| `certificados_service.dfy` | `CertificadosService` | the service operations as methods on the list, each proved equal to its specification |
| `vehiculo.dfy` | `Vehiculos` | the vehicle record |
| `eligibility.dfy` | `Requisitos` | the `cumpleRequisitos*` rules and the `show*` flags |
| `datos_vehiculo.dfy` | `DatosVehiculo` | the vehicle-data section: updaters, the default "Seco" temperature, conditional fields |
| `documentacion.dfy` | `Documentacion` | the documents section: date windows, the validation effect, the year options |
| `registro_vehicular.dfy` | `RegistroVehicular` | the form: the calls a save makes, the reset, the guarded grid reload, and the effect of a save on the list |

The remote side is not executable code here. The form's calls are
appended to a log, and a set of rejected calls stands for the calls that
answer with an error. A call in that set throws, and the awaited sequence
stops there. The effect of the completed calls on the certificates list is
given by the service specification (`RegistroVehicular.ApplyCalls`). Each
service operation is itself a run of separate requests (write the record,
delete each attachment, add each file, delete each record), and nothing is
rolled back: a call that throws leaves its first `k` requests done, `k`
being a parameter (`RegistroVehicular.AfterCalls`). The
current date is a parameter (`today`). Dates are calendar dates at local
midnight.

## Model

Source paths are relative to the repository root.

| member | source | states |
|---|---|---|
| OData.Safe | src/webparts/registroVehicular/services/certificados.service.ts:10 | the escaped literal is the input with every single quote doubled: it grows by exactly the number of quotes |
| OData.UnescapeSafe | src/webparts/registroVehicular/services/certificados.service.ts:10 | reading an escaped literal back yields the original text, so the filter compares against the plate or kind exactly as given |
| OData.SafeInjective | src/webparts/registroVehicular/services/certificados.service.ts:10 | two different texts never escape to the same literal, so one plate's filter cannot match another plate |
| OData.SafeWithoutQuotes | src/webparts/registroVehicular/services/certificados.service.ts:10 | text without quotes is sent unchanged |
| Text.CaseFolding | src/webparts/registroVehicular/RegistroVehicular.tsx:386 | lower-casing is idempotent and forgets how the text was cased: lower-casing the upper-cased text gives the lower-cased text, and the other way round |
| Text.StripMarks | src/webparts/registroVehicular/RegistroVehicular.tsx:388 | no combining mark is left, every character comes from the input, and text without marks comes back unchanged |
| Text.StripMarksConcat | src/webparts/registroVehicular/RegistroVehicular.tsx:388 | removing marks distributes over concatenation; with the two cases above, the result is the input with exactly its marks taken out and the rest in order |
| Text.StripMarksOfDecompose | src/webparts/registroVehicular/RegistroVehicular.tsx:387-388 | a decomposed accented letter keeps only its base letter |
| Text.TrimStartSpec | src/webparts/registroVehicular/RegistroVehicular.tsx:389 | the leading-space strip removes exactly the leading white space: the result is a suffix that is empty or starts with a non-space, and everything removed is space |
| Text.TrimEndSpec | src/webparts/registroVehicular/RegistroVehicular.tsx:389 | the trailing-space strip removes exactly the trailing white space, symmetrically |
| Text.Trim | src/webparts/registroVehicular/services/certificados.service.ts:161 | the trimmed text neither starts nor ends with white space and holds only characters of the input |
| Text.TrimKeepsTrimmed | src/webparts/registroVehicular/services/certificados.service.ts:161 | trimming an already trimmed text changes nothing, so trimming is idempotent |
| Text.TrimIgnoresSurroundingSpace | src/webparts/registroVehicular/RegistroVehicular.tsx:239 | a white-space character added before or after a plate does not change the trimmed plate |
| Text.TrimStartAllSpace | src/webparts/registroVehicular/services/certificados.service.ts:161-162 | a text made only of white space trims to the empty text |
| Text.TrimStartAppend | src/webparts/registroVehicular/RegistroVehicular.tsx:389 | once a text has a non-space character, appending any character appends it to the leading-space strip's result |
| Text.NfdOfLowerIsLowerOrMark | src/webparts/registroVehicular/RegistroVehicular.tsx:386-387 | decomposing lower-cased text yields only lower-case base characters and combining marks |
| Text.Norm | src/webparts/registroVehicular/RegistroVehicular.tsx:384-389 | the normalised text is trimmed and holds no upper-case letter, no precomposed accented letter and no combining mark |
| Text.NormIdempotent | src/webparts/registroVehicular/RegistroVehicular.tsx:384-389 | normalising twice is normalising once |
| Text.NormFolds | src/webparts/registroVehicular/RegistroVehicular.tsx:384-389 | on text without combining marks, normalising is trimming the text with every letter replaced by its lower-case base letter, accents dropped |
| Text.NormCamion | src/webparts/registroVehicular/RegistroVehicular.tsx:384-389 | "Camión" normalises to "camion" |
| Text.NormIgnoresCase | src/webparts/registroVehicular/RegistroVehicular.tsx:384-389 | the normalised form does not depend on letter case |
| Text.NormIgnoresSurroundingSpace | src/webparts/registroVehicular/RegistroVehicular.tsx:384-389 | a space before or after the text does not change its normalised form |
| Text.LessIrreflexive | src/webparts/registroVehicular/services/certificados.service.ts:137 | the order of `sort()` never puts a string before itself |
| Text.LessTransitive | src/webparts/registroVehicular/services/certificados.service.ts:137 | the order of `sort()` is transitive |
| Text.LessTotal | src/webparts/registroVehicular/services/certificados.service.ts:137 | of two different strings one sorts before the other |
| Text.LessAsymmetric | src/webparts/registroVehicular/services/certificados.service.ts:137 | two strings never sort before each other |
| Text.InsertSorted | src/webparts/registroVehicular/services/certificados.service.ts:137 | inserting a new key into a strictly sorted list keeps it strictly sorted, adds one element and holds exactly the old keys and the new one |
| Text.SortStrings | src/webparts/registroVehicular/services/certificados.service.ts:137 | sorting distinct keys yields a strictly ascending list of the same keys |
| Text.Digits | src/webparts/registroVehicular/services/certificados.service.ts:93 | a natural number prints as decimal digits without leading zeros whose value is that number |
| Text.DecimalStringInjective | src/webparts/registroVehicular/services/certificados.service.ts:93 | two different integers never print the same text |
| Dates.DaysInMonth | src/webparts/registroVehicular/components/sections/Documentacion.tsx:44-49 | every month has between 28 and 31 days |
| Dates.MonthsAgo | src/webparts/registroVehicular/components/sections/Documentacion.tsx:44-49 | going back `n` months from a valid date, with `setMonth`'s overflow into the next month, gives a valid date |
| Dates.MonthsAgoZero | src/webparts/registroVehicular/components/sections/Documentacion.tsx:44-49 | going back zero months is today |
| Dates.MonthsAgoStep | src/webparts/registroVehicular/components/sections/Documentacion.tsx:44-49 | one month further back is a strictly earlier date, also when the day overflows |
| Dates.MonthsAgoStrictlyDecreasing | src/webparts/registroVehicular/components/sections/Documentacion.tsx:44-49 | more months back is always strictly earlier |
| Dates.PrevDay | src/webparts/registroVehicular/components/sections/Documentacion.tsx:79 | the day before a valid date is a valid date |
| Dates.PrevDayIsPrevious | src/webparts/registroVehicular/components/sections/Documentacion.tsx:79 | the day before `d` is before `d`, and no valid date lies strictly between them |
| CertStore.Without | src/webparts/registroVehicular/services/certificados.service.ts:59 | deleting an attachment by name removes that name and keeps every other attachment |
| CertStore.CertificateList.Query | src/webparts/registroVehicular/services/certificados.service.ts:41-45 | a filtered query returns exactly the `Id`s of the records that satisfy the filter, strictly descending or strictly ascending as ordered |
| CertStore.CertificateList.Add | src/webparts/registroVehicular/services/certificados.service.ts:52-53 | an added record gets the next `Id`, holds exactly the sent columns, and no other record changes |
| CertStore.CertificateList.Update | src/webparts/registroVehicular/services/certificados.service.ts:50 | an update merges the payload into that one record and changes nothing else |
| CertStore.CertificateList.Delete | src/webparts/registroVehicular/services/certificados.service.ts:180 | a deletion removes that one record |
| CertStore.CertificateList.AttachmentNames | src/webparts/registroVehicular/services/certificados.service.ts:58 | the attachment listing is the record's attachment names |
| CertStore.CertificateList.DeleteAttachment | src/webparts/registroVehicular/services/certificados.service.ts:59 | deleting by name removes that attachment from that record only |
| CertStore.CertificateList.AddAttachment | src/webparts/registroVehicular/services/certificados.service.ts:60 | adding an attachment appends its name to that record only |
| CertificadosSpec.MaxOf | src/webparts/registroVehicular/services/certificados.service.ts:44-45 | the first result of a query ordered by `Id` descending is the largest matching `Id` |
| CertificadosSpec.MaxOfUnique | src/webparts/registroVehicular/services/certificados.service.ts:44-45 | any member that bounds all the others is that largest `Id` |
| CertificadosSpec.Upsert | src/webparts/registroVehicular/services/certificados.service.ts:25-64 | `addOrUpdateCertificado` on the list; stated by the upsert lemmas below |
| CertificadosSpec.UpsertUpdatesLatest | src/webparts/registroVehicular/services/certificados.service.ts:40-50 | when records of the plate and kind exist, the one with the largest `Id` is updated and returned, and no record is added |
| CertificadosSpec.UpsertCreatesOne | src/webparts/registroVehicular/services/certificados.service.ts:40-54 | when none exists, exactly one record is added, under an `Id` larger than every existing one |
| CertificadosSpec.UpsertFrame | src/webparts/registroVehicular/services/certificados.service.ts:47-61 | the upsert keeps the list well formed and changes no record but its target |
| CertificadosSpec.UpsertColumns | src/webparts/registroVehicular/services/certificados.service.ts:32-38 | the target carries the plate; every supplied column has the supplied value; every omitted or empty column keeps its previous value |
| CertificadosSpec.UpsertAttachments | src/webparts/registroVehicular/services/certificados.service.ts:56-61 | with files, the target's attachments are exactly those files' names, in order; without files, they are untouched (none on a new record) |
| CertificadosSpec.UpsertAgainTargetsSameRecord | src/webparts/registroVehicular/services/certificados.service.ts:40-54 | a second upsert for the same plate and non-empty kind targets the record the first returned |
| CertificadosSpec.UpsertAgainKeepsTarget | src/webparts/registroVehicular/services/certificados.service.ts:40-54 | repeating the same upsert leaves its target record as the first upsert made it |
| CertificadosSpec.UpsertIdempotent | src/webparts/registroVehicular/services/certificados.service.ts:25-64 | repeating an upsert with a non-empty kind changes nothing and returns the same `Id` |
| CertificadosSpec.UpsertReplacesAttachmentOnUpdate | src/webparts/registroVehicular/services/certificados.service.ts:56-61 | re-uploading a certificate with file B after file A leaves B as the record's only attachment |
| CertificadosSpec.ReplaceByKind | src/webparts/registroVehicular/services/certificados.service.ts:186-217 | `replaceCertificadoAdjunto` on the list; stated by the lemma below |
| CertificadosSpec.ReplaceByKindIsReplaceByIdOfLatest | src/webparts/registroVehicular/services/certificados.service.ts:193-205 | replacing by plate and kind fails exactly when no record has the kind as given or upper-cased; otherwise it is the replacement by `Id` of the latest match |
| CertificadosSpec.ReplaceByIdEffect | src/webparts/registroVehicular/services/certificados.service.ts:219-235 | a replacement fails exactly on an unknown `Id`; on success the record's one attachment is the new file, its columns and every other record are unchanged, and no record is added or removed |
| CertificadosSpec.DeleteForPlate | src/webparts/registroVehicular/services/certificados.service.ts:157-183 | `deleteCertificadosPorPlaca` on the list; stated by the lemmas below |
| CertificadosSpec.DeleteForPlateEffect | src/webparts/registroVehicular/services/certificados.service.ts:157-183 | deleting by plate removes exactly the records titled with the trimmed plate; a blank plate, or a plate with no records, changes nothing |
| CertificadosSpec.DeleteForPlateIdempotent | src/webparts/registroVehicular/services/certificados.service.ts:157-183 | deleting a plate's certificates a second time changes nothing |
| CertificadosSpec.ChunksCover | src/webparts/registroVehicular/services/certificados.service.ts:177-178 | the batches, joined, are the `Id`s in their original order, each once |
| CertificadosSpec.ChunksSizes | src/webparts/registroVehicular/services/certificados.service.ts:175-178 | there are ceil(n/10) batches; each has 1 to 10 `Id`s, and all but the last have exactly 10 |
| CertificadosSpec.ChunksOfTwentyThree | src/webparts/registroVehicular/services/certificados.service.ts:175-178 | 23 records are deleted in batches of 10, 10 and 3 |
| CertificadosSpec.LatestShadows | src/webparts/registroVehicular/services/certificados.service.ts:80-84 | of two records with the same plate and kind, the one with the smaller `Id` never shows |
| CertificadosSpec.Projection | src/webparts/registroVehicular/services/certificados.service.ts:87-102 | the state read back for the form never carries a file |
| CertificadosSpec.EstadoOf | src/webparts/registroVehicular/services/certificados.service.ts:66-103 | `getCertificadosEstado` on the list; stated by `CertificadosService.GetCertificadosEstado` and `LatestShadows` |
| CertificadosService.TitleFilter | src/webparts/registroVehicular/services/certificados.service.ts:77 | the plate filter matches a record exactly when its title is the plate |
| CertificadosService.UpsertFilter | src/webparts/registroVehicular/services/certificados.service.ts:40-43 | the upsert's filter matches exactly the records of the plate whose kind is the one sent, or empty when none is sent |
| CertificadosService.ReplaceFilter | src/webparts/registroVehicular/services/certificados.service.ts:196-200 | the replacement's filter matches exactly the records of the plate whose kind is `tipo` or its upper-case form |
| CertificadosService.FirstIsMax | src/webparts/registroVehicular/services/certificados.service.ts:44-49 | the first `Id` of a descending result is the largest `Id` that matches |
| CertificadosService.ReplaceAttachments | src/webparts/registroVehicular/services/certificados.service.ts:57-60 | deleting every attachment and then adding the files leaves exactly the files' names and touches no other record |
| CertificadosService.DeleteAttachments | src/webparts/registroVehicular/services/certificados.service.ts:58-59 | deleting each listed attachment by name leaves the record with none |
| CertificadosService.AddAttachments | src/webparts/registroVehicular/services/certificados.service.ts:60 | adding the files one by one appends their names in order |
| CertificadosService.AddOrUpdateCertificado | src/webparts/registroVehicular/services/certificados.service.ts:25-64 | the new list and the returned `Id` are those the upsert specification gives |
| CertificadosService.FirstPerKind | src/webparts/registroVehicular/services/certificados.service.ts:80-84 | walking the records newest first keeps, for each upper-cased kind, the first record met, which has the largest `Id` of that kind; every kind met is a key, once |
| CertificadosService.FirstPerKindIsLatest | src/webparts/registroVehicular/services/certificados.service.ts:80-84 | that map holds, for every kind the plate has, the latest record of that kind and nothing else |
| CertificadosService.KindsAreKeys | src/webparts/registroVehicular/services/certificados.service.ts:131-137 | the map's keys are exactly the kinds under which the plate has records |
| CertificadosService.PlateRecordsDescending | src/webparts/registroVehicular/services/certificados.service.ts:72-78 | the plate query returns exactly the plate's records, newest first |
| CertificadosService.LatestByKind | src/webparts/registroVehicular/services/certificados.service.ts:122-135 | the map built from the query holds the latest record per kind, and the key order lists each key once |
| CertificadosService.GetCertificadosEstado | src/webparts/registroVehicular/services/certificados.service.ts:66-103 | the state returned is the projection of the latest record of each of the five kinds |
| CertificadosService.RowsShowLatest | src/webparts/registroVehicular/services/certificados.service.ts:138-151 | each row built from that map shows the latest record of its kind |
| CertificadosService.RowsFor | src/webparts/registroVehicular/services/certificados.service.ts:138-151 | one row per sorted key, in that order, from the record the map gives |
| CertificadosService.GetCertificadosListado | src/webparts/registroVehicular/services/certificados.service.ts:116-153 | one row per kind the plate has, strictly sorted by kind, each the latest record of its kind with its first attachment |
| CertificadosService.DeleteBatch | src/webparts/registroVehicular/services/certificados.service.ts:178-181 | deleting a batch removes exactly its `Id`s and leaves every other record as it was |
| CertificadosService.NextChunk | src/webparts/registroVehicular/services/certificados.service.ts:177-178 | the slice taken at position `i` is the first batch of what remains |
| CertificadosService.DeleteInBatches | src/webparts/registroVehicular/services/certificados.service.ts:174-182 | the loop deletes the batches of ten in order, removes exactly the given `Id`s and leaves the rest alone |
| CertificadosService.DeleteCertificadosPorPlaca | src/webparts/registroVehicular/services/certificados.service.ts:157-183 | the new list is the plate-deletion specification's; the batches are the plate's `Id`s in the order the query returns them, taken to be ascending, cut in tens; none for a blank plate |
| CertificadosService.DeleteMatches | src/webparts/registroVehicular/services/certificados.service.ts:167-182 | removing exactly the queried `Id`s is the plate-deletion specification |
| CertificadosService.ReplaceWith | src/webparts/registroVehicular/services/certificados.service.ts:207-216 | the record ends with the new file as its only attachment, and the name read back is that file's |
| CertificadosService.ReplaceCertificadoAdjunto | src/webparts/registroVehicular/services/certificados.service.ts:186-217 | fails, changing nothing, exactly when the specification finds no record; otherwise the list and the reply are the specification's |
| CertificadosService.ReplaceAdjuntoById | src/webparts/registroVehicular/services/certificados.service.ts:219-235 | fails, changing nothing, exactly on an unknown `Id`; otherwise the list and the reply are the specification's |
| CertificadosRequests.WithoutAll | src/webparts/registroVehicular/services/certificados.service.ts:59 | deleting attachments by name one after the other keeps exactly the names not deleted |
| CertificadosRequests.DeleteFilesEffect | src/webparts/registroVehicular/services/certificados.service.ts:59 | the delete loop changes only that record's attachments, removing each listed name |
| CertificadosRequests.AddFilesEffect | src/webparts/registroVehicular/services/certificados.service.ts:60 | the add loop appends the files' names in order to that record only |
| CertificadosRequests.UpsertRequestsComplete | src/webparts/registroVehicular/services/certificados.service.ts:47-61 | the update or add, the attachment deletions and the file adds, all completed, are the upsert of the specification |
| CertificadosRequests.UpsertFailureLeavesNoFile | src/webparts/registroVehicular/services/certificados.service.ts:56-61 | when the first file add fails, the record is written with all its columns and has no attachment: the old file is gone and the new one missing |
| CertificadosRequests.UpsertRetryRepairs | src/webparts/registroVehicular/services/certificados.service.ts:25-64 | an upsert that threw after any number of its requests, run again, leaves the list of one complete upsert (non-empty kind) |
| CertificadosRequests.ReplaceByIdRequestsComplete | src/webparts/registroVehicular/services/certificados.service.ts:227-230 | the attachment deletions and the add, all completed, are the replacement of the specification |
| CertificadosRequests.ReplaceFailureLeavesNoFile | src/webparts/registroVehicular/services/certificados.service.ts:227-230 | when the add of the new file fails, the record is left with no attachment and nothing else changed |
| CertificadosRequests.ReplacePartial | src/webparts/registroVehicular/services/certificados.service.ts:209-212 | a replacement cut short after any request differs from the list before only in that record's files |
| CertificadosRequests.ReplaceByIdRetryRepairs | src/webparts/registroVehicular/services/certificados.service.ts:219-235 | a replacement by `Id` that threw part-way, run again, leaves the list of one complete replacement |
| CertificadosRequests.ReplaceRetryRepairs | src/webparts/registroVehicular/services/certificados.service.ts:186-217 | the same for the replacement by kind: the partial list has the same latest match |
| CertificadosRequests.Ascending | src/webparts/registroVehicular/services/certificados.service.ts:167-181 | the plate's `Id`s as one ascending sequence, each once |
| CertificadosRequests.DeleteItemsEffect | src/webparts/registroVehicular/services/certificados.service.ts:177-181 | one `delete` per `Id` removes exactly those records |
| CertificadosRequests.DeleteRetryRepairs | src/webparts/registroVehicular/services/certificados.service.ts:157-183 | deleting any subset of the plate's records first does not change the result of the whole deletion |
| CertificadosRequests.DeleteRequestsPartial | src/webparts/registroVehicular/services/certificados.service.ts:157-183 | all the deletions are the plate deletion; a deletion cut short removed only records of the plate, kept the rest unchanged, and a retry finishes it |
| Requisitos.CumpleResolucionBonificacion | src/webparts/registroVehicular/RegistroVehicular.tsx:391-395 | the bonus resolution is only ever required of a unit that also needs fumigation |
| Requisitos.CumpleTermoking | src/webparts/registroVehicular/RegistroVehicular.tsx:397-405 | termoking (and Sanipes) is only ever required of a unit that also needs fumigation |
| Requisitos.CumpleFumigacion | src/webparts/registroVehicular/RegistroVehicular.tsx:409-412 | `cumpleRequisitosFumigacion`; its accent and case folding is stated by `UnitTypeFolded` and `AccentedCamion` |
| Requisitos.Flags | src/webparts/registroVehicular/RegistroVehicular.tsx:391-435 | Sanipes is required exactly when termoking is; cleaning exactly when fumigation is; termoking and the bonus resolution each imply fumigation |
| Requisitos.FlagsIgnoreCase | src/webparts/registroVehicular/RegistroVehicular.tsx:384-412 | the requirements depend on the unit type and temperature only up to letter case |
| Requisitos.FlagsIgnoreSpaceAroundUnit | src/webparts/registroVehicular/RegistroVehicular.tsx:384-412 | white space around the unit type does not change any requirement |
| Requisitos.NormOfPadded | src/webparts/registroVehicular/RegistroVehicular.tsx:384-389 | padding a text with a space on both sides does not change its normalised form |
| Requisitos.BonificacionOnlyForCarreta | src/webparts/registroVehicular/RegistroVehicular.tsx:391-395 | a truck never needs the bonus resolution; a trailer needs it exactly when the bonus flag is on |
| Requisitos.UnitTypeFolded | src/webparts/registroVehicular/RegistroVehicular.tsx:409-412 | for a unit type without combining marks, fumigation is required exactly when its trimmed, lower-cased, unaccented text is "camion" or "carreta" |
| Requisitos.AccentedCamion | src/webparts/registroVehicular/RegistroVehicular.tsx:409-412 | a unit typed "Camión" needs fumigation |
| DatosVehiculo.FindKey | src/webparts/registroVehicular/components/sections/DatosVehiculo.tsx:90-92 | finds the first option with the key, or reports that none has it |
| DatosVehiculo.FindSeco | src/webparts/registroVehicular/components/sections/DatosVehiculo.tsx:72 | finds the first option whose text normalises to "seco", or reports that none does |
| DatosVehiculo.SetTextChangesOneKey | src/webparts/registroVehicular/components/sections/DatosVehiculo.tsx:44-50 | a text input sets its one property (empty when no value) and keeps every other property, toggle and company field |
| DatosVehiculo.SetChoiceChangesOneKey | src/webparts/registroVehicular/components/sections/DatosVehiculo.tsx:52-58 | a dropdown sets its one property to the chosen key (empty when none) and keeps everything else |
| DatosVehiculo.ToggleRampa | src/webparts/registroVehicular/components/sections/DatosVehiculo.tsx:234-238 | the ramp toggle stores a strict boolean that is on exactly when the control is checked, and changes nothing else |
| DatosVehiculo.ToggleBonificacion | src/webparts/registroVehicular/components/sections/DatosVehiculo.tsx:263-267 | the bonus toggle stores a strict boolean likewise and changes nothing else |
| DatosVehiculo.DefaultTemperatura | src/webparts/registroVehicular/components/sections/DatosVehiculo.tsx:61-78 | the default-"Seco" effect; its behaviour is stated by the two lemmas below |
| DatosVehiculo.DefaultTemperaturaEffect | src/webparts/registroVehicular/components/sections/DatosVehiculo.tsx:61-78 | a non-blank temperature is left alone; a blank one becomes the key of the first option reading "seco", or "Seco" when none does, and no other property, toggle or company field changes |
| DatosVehiculo.DefaultTemperaturaIdempotent | src/webparts/registroVehicular/components/sections/DatosVehiculo.tsx:61-78 | once the default has filled in a non-blank value it does not fire again |
| DatosVehiculo.ShowTipoTemperatura | src/webparts/registroVehicular/components/sections/DatosVehiculo.tsx:81-99 | `showTipoTemperatura`; stated by the lemma below |
| DatosVehiculo.TipoTemperaturaShown | src/webparts/registroVehicular/components/sections/DatosVehiculo.tsx:81-99 | the temperature-type field shows when the stored value reads "con temperatura", or when its option's text does; with no option of that key only the value counts |
| DatosVehiculo.ShowCapacidadOtros | src/webparts/registroVehicular/components/sections/DatosVehiculo.tsx:102-122 | `showCapacidadOtros`; stated by the lemma below |
| DatosVehiculo.CapacidadOtrosShown | src/webparts/registroVehicular/components/sections/DatosVehiculo.tsx:102-122 | the "otros" field shows exactly when the displayed capacity starts with "otro" once normalised; the key stands for itself outside choice columns or without a matching option |
| DatosVehiculo.OtroTestsArePrefixTest | src/webparts/registroVehicular/components/sections/DatosVehiculo.tsx:120-121 | the three tests on the capacity text amount to the one prefix test |
| DatosVehiculo.TogglesControlFields | src/webparts/registroVehicular/components/sections/DatosVehiculo.tsx:234-272 | each toggle shows or hides its own dependent fields and leaves the other's visibility alone |
| Documentacion.Violations | src/webparts/registroVehicular/components/sections/Documentacion.tsx:68-99 | the four date checks of the section; stated by the lemmas below |
| Documentacion.ViolationsOrdered | src/webparts/registroVehicular/components/sections/Documentacion.tsx:68-99 | the violations come in the fixed order fumigation, technical review, termoking, cleaning, each at most once |
| Documentacion.ViolationsExact | src/webparts/registroVehicular/components/sections/Documentacion.tsx:68-99 | each violation is reported exactly when its section is shown (the technical review always is), its date is valid, and the date falls before its limit: 6, 6 or 1 months back, or today for the review |
| Documentacion.AbsentDatesPass | src/webparts/registroVehicular/components/sections/Documentacion.tsx:51-55 | a date that is empty or not a real calendar date (`toDateOrNull` gives null) never produces a violation |
| Documentacion.HiddenChecksIgnoreTheirDates | src/webparts/registroVehicular/components/sections/Documentacion.tsx:71-99 | each of the fumigation, termoking and cleaning checks, when hidden, ignores its date: changing only that date changes no violation |
| Documentacion.IsWithinLastMonths | src/webparts/registroVehicular/components/sections/Documentacion.tsx:57-58 | `isWithinLastMonths`; its boundary and monotonicity are stated by the two lemmas below |
| Documentacion.WindowBoundary | src/webparts/registroVehicular/components/sections/Documentacion.tsx:57-58 | the day exactly `n` months back is inside the window; the day before it is outside |
| Documentacion.RevisionTecnicaBoundary | src/webparts/registroVehicular/components/sections/Documentacion.tsx:78-81 | a technical review expiring today is valid; one that expired yesterday is not |
| Documentacion.WindowMonotone | src/webparts/registroVehicular/components/sections/Documentacion.tsx:57-58 | a date inside an `n`-month window is inside every longer window |
| Documentacion.OneMonthBackFromMarch31 | src/webparts/registroVehicular/components/sections/Documentacion.tsx:44-49 | one month back from 31 March 2025 is 3 March, because 31 February overflows, so a cleaning dated 2 March is already stale |
| Documentacion.DocumentacionSection.Validate | src/webparts/registroVehicular/components/sections/Documentacion.tsx:68-113 | the section's errors are the messages of the violations, and it reports validity exactly when there are none |
| Documentacion.YearOptionsNewestFirst | src/webparts/registroVehicular/components/sections/Documentacion.tsx:35-41 | the year options run from the current year down to 1980, key equal to text, and every year in between is offered |
| RegistroVehicular.AttemptSpec | src/webparts/registroVehicular/RegistroVehicular.tsx:356-377 | awaited calls complete up to the first rejected one; the sequence throws exactly when there is one, and then stops there |
| RegistroVehicular.AttemptAppend | src/webparts/registroVehicular/RegistroVehicular.tsx:356-368 | awaiting one sequence after another is awaiting both; once the first throws, the second never starts |
| RegistroVehicular.AttemptPair | src/webparts/registroVehicular/RegistroVehicular.tsx:332-333 | the three outcomes of two awaited calls |
| RegistroVehicular.UpsertFirst | src/webparts/registroVehicular/RegistroVehicular.tsx:362-368 | a first call followed by the rest: the rest runs only if the first goes through |
| RegistroVehicular.NothingRejectedCompletes | src/webparts/registroVehicular/RegistroVehicular.tsx:356-371 | when nothing fails, every call completes |
| RegistroVehicular.Write | src/webparts/registroVehicular/RegistroVehicular.tsx:259-313 | every certificate write is an upsert for the plate and its kind, with no expiry and at most one file |
| RegistroVehicular.Selected | src/webparts/registroVehicular/RegistroVehicular.tsx:259-313 | the writes issued are at most the slots |
| RegistroVehicular.SelectedSpec | src/webparts/registroVehicular/RegistroVehicular.tsx:259-313 | every write issued comes from a slot whose condition holds; none is issued exactly when no condition holds |
| RegistroVehicular.SelectedInOrder | src/webparts/registroVehicular/RegistroVehicular.tsx:259-313 | the write of every slot whose condition holds is issued, right after the writes of the slots before it, so the writes follow slot order |
| RegistroVehicular.SelectedStep | src/webparts/registroVehicular/RegistroVehicular.tsx:259-313 | each slot adds its call, or nothing, after the writes of the slots before it |
| RegistroVehicular.CertificateWritesShape | src/webparts/registroVehicular/RegistroVehicular.tsx:238-314 | a creation writes at most seven certificates, all for the trimmed plate with at most one file; none exactly when the plate is blank or nothing was entered |
| RegistroVehicular.CertificateWritesOrder | src/webparts/registroVehicular/RegistroVehicular.tsx:259-313 | a creation writes the kinds TARJETA_PROPIEDAD, RESOLUCION_BONIFICACION, CERTIFICADO_BONIFICACION, REVISION_TECNICA, SANIPES, TERMOKING, LIMPIEZA_DESINFECCION in that order, each exactly when something was entered for it |
| RegistroVehicular.FumigacionNeverSaved | src/webparts/registroVehicular/RegistroVehicular.tsx:238-314 | the fumigation date and file never change what a creation saves |
| RegistroVehicular.Replacements | src/webparts/registroVehicular/RegistroVehicular.tsx:316-322 | one attachment replacement per staged file, in staging order; none for a blank plate |
| RegistroVehicular.ResetEffect | src/webparts/registroVehicular/RegistroVehicular.tsx:181-229 | a reset blanks every text property, turns both toggles off, sets the vehicle active, keeps the company name when set and the company identifier when non-zero (else drops them), empties every document input including the fumigation ones, and clears the staged files and the errors; the action, the log and the busy flags are untouched |
| RegistroVehicular.ResetIdempotent | src/webparts/registroVehicular/RegistroVehicular.tsx:181-229 | resetting twice is resetting once |
| RegistroVehicular.Guardar | src/webparts/registroVehicular/RegistroVehicular.tsx:337-382 | a save never changes the action or the reload key, and only appends to the log of calls |
| RegistroVehicular.GuardarRefused | src/webparts/registroVehicular/RegistroVehicular.tsx:338-352 | a save with an empty plate, or a creation with invalid documents, changes nothing and calls nothing |
| RegistroVehicular.GuardarReleasesBusy | src/webparts/registroVehicular/RegistroVehicular.tsx:354-381 | a save that goes ahead always ends with both busy flags lowered and only appends to the log |
| RegistroVehicular.GuardarFailureKeepsInput | src/webparts/registroVehicular/RegistroVehicular.tsx:372-377 | when a call fails, the vehicle, the documents, the staged files and the validation state are kept for a retry |
| RegistroVehicular.CrearSuccess | src/webparts/registroVehicular/RegistroVehicular.tsx:362-370 | a successful creation saves the vehicle, then its certificates, then resets the form |
| RegistroVehicular.ActualizarSuccess | src/webparts/registroVehicular/RegistroVehicular.tsx:362-370 | a successful update saves the vehicle, replaces one attachment per staged file, clears the staged files and keeps the rest of the form |
| RegistroVehicular.BajaOrder | src/webparts/registroVehicular/RegistroVehicular.tsx:326-334 | a decommission deletes the certificates before the vehicle; if the first deletion fails the vehicle is not touched; if both succeed the form is reset |
| RegistroVehicular.BajaOfBlankPlate | src/webparts/registroVehicular/RegistroVehicular.tsx:326-360 | a plate made of spaces passes the empty-plate check, deletes nothing, and the form is still reset |
| RegistroVehicular.CrearFollowsValidation | src/webparts/registroVehicular/RegistroVehicular.tsx:343-352 | once the documents section has reported, a creation is refused exactly when it found violations, and otherwise makes all its calls |
| RegistroVehicular.KeepsRecordsKeepsKeys | src/webparts/registroVehicular/RegistroVehicular.tsx:316-322 | calls that neither upsert nor delete certificates keep the list's records and next `Id` |
| RegistroVehicular.UpdateCallsKeepRecords | src/webparts/registroVehicular/RegistroVehicular.tsx:362-367 | an update's calls neither upsert nor delete certificates |
| RegistroVehicular.ActualizarCreatesNoCertificate | src/webparts/registroVehicular/RegistroVehicular.tsx:362-367 | whatever fails, an update never adds or removes a certificate record |
| RegistroVehicular.CallIsItsRequests | src/webparts/registroVehicular/services/certificados.service.ts:25-64 | a call that completes has done all its requests, so the request view agrees with `ApplyCall` for every call |
| RegistroVehicular.RetryRepairs | src/webparts/registroVehicular/RegistroVehicular.tsx:356-377 | saving again after a call failed part-way leaves the list as one successful call would |
| RegistroVehicular.UpdateKeepsRecordsWhateverFails | src/webparts/registroVehicular/RegistroVehicular.tsx:362-367 | whichever call of an update fails and however far it got, no certificate record is added or removed |
| RegistroVehicular.FailedKeepsKeys | src/webparts/registroVehicular/RegistroVehicular.tsx:316-322 | a vehicle call or a replacement that fails part-way adds or removes no certificate record |
| RegistroVehicular.BajaRemovesPlateCertificates | src/webparts/registroVehicular/RegistroVehicular.tsx:326-334 | once a decommission's first call goes through, no certificate of the plate remains, whether or not the vehicle deletion fails |
| RegistroVehicular.LoadKeyInjective | src/webparts/registroVehicular/RegistroVehicular.tsx:139 | two reloads share a key exactly when they are for the same action and the same company text |
| RegistroVehicular.FiltrarProveedorEfectivo | src/webparts/registroVehicular/RegistroVehicular.tsx:66-67 | who sees only their company's vehicles; stated by `OnlyPureSupplierFiltered` |
| RegistroVehicular.OnlyPureSupplierFiltered | src/webparts/registroVehicular/RegistroVehicular.tsx:135-147 | only a supplier that is neither distributor nor coordinator has the grid reload filtered by its company; anyone else reloads with no filter |
| RegistroVehicular.Load | src/webparts/registroVehicular/RegistroVehicular.tsx:135-147 | the reload effect changes nothing but the reload key and the log, and only appends to the log |
| RegistroVehicular.LoadIdempotent | src/webparts/registroVehicular/RegistroVehicular.tsx:135-147 | re-running the reload effect without a change loads nothing more |
| RegistroVehicular.LoadEffect | src/webparts/registroVehicular/RegistroVehicular.tsx:135-147 | the effect loads at most once, never while creating, and filters by company only when filtering applies |
| RegistroVehicular.RegistroForm.Remote | src/webparts/registroVehicular/RegistroVehicular.tsx:362 | a remote call throws exactly when it is rejected, and is logged only when it completes |
| RegistroVehicular.RegistroForm.Issue | src/webparts/registroVehicular/RegistroVehicular.tsx:259-313 | issuing one conditional write extends the log as awaiting the writes so far plus this one |
| RegistroVehicular.RegistroForm.IssueSlot | src/webparts/registroVehicular/RegistroVehicular.tsx:259-313 | issuing slot `k` extends the log as awaiting the selected writes of the first `k + 1` slots |
| RegistroVehicular.RegistroForm.IssueSeven | src/webparts/registroVehicular/RegistroVehicular.tsx:259-313 | issuing the seven slots logs the awaited selected writes |
| RegistroVehicular.RegistroForm.GuardarCertificados | src/webparts/registroVehicular/RegistroVehicular.tsx:238-314 | the calls logged are the awaited certificate writes of a creation, and it throws exactly when one of them fails |
| RegistroVehicular.RegistroForm.GuardarStaged | src/webparts/registroVehicular/RegistroVehicular.tsx:316-322 | the calls logged are the awaited replacements, one per staged file |
| RegistroVehicular.RegistroForm.Eliminar | src/webparts/registroVehicular/RegistroVehicular.tsx:326-334 | the calls logged are the awaited deletions of certificates and then the vehicle; none for a blank plate |
| RegistroVehicular.RegistroForm.ResetForm | src/webparts/registroVehicular/RegistroVehicular.tsx:181-229 | the form's new state is the reset of the old |
| RegistroVehicular.RegistroForm.Perform | src/webparts/registroVehicular/RegistroVehicular.tsx:356-368 | the calls logged are the awaited calls of the action, and it throws exactly when one fails |
| RegistroVehicular.RegistroForm.OnGuardar | src/webparts/registroVehicular/RegistroVehicular.tsx:337-382 | the form's new state is the save specification's |
| RegistroVehicular.RegistroForm.Save | src/webparts/registroVehicular/RegistroVehicular.tsx:354-381 | after the guards, the form ends as the awaited calls of the action leave it |
| RegistroVehicular.RegistroForm.Conclude | src/webparts/registroVehicular/RegistroVehicular.tsx:367-381 | the busy flags are lowered; on success an update clears the staged files and any other action resets the form |
| RegistroVehicular.RegistroForm.SelectAccion | src/webparts/registroVehicular/RegistroVehicular.tsx:448-471 | choosing "crear" resets the form; the other tiles only change the action |
| RegistroVehicular.RegistroForm.OnValidityChange | src/webparts/registroVehicular/RegistroVehicular.tsx:524-527 | the form records the section's validity and errors and nothing else |
| RegistroVehicular.RegistroForm.LoadEffect | src/webparts/registroVehicular/RegistroVehicular.tsx:135-147 | the form's new state is the reload specification's |

## Left out

- Input and output are not modelled: alerts, rendering, the `required` memo, the DocCard atom, the web part shell, `index.ts` and the props interface. The `Proveedor`, `Distribuidor` and `Coordinador` props enter only through `FiltrarProveedorEfectivo`.
- The vehicle services (`upsertVehiculo`, `deleteVehiculoByPlaca`, the grid's `load`) are opaque logged calls. Their effect on the vehicles list is not modelled.
- `onInvokeRow` is not modelled. Nor is the empresa-sync effect (`RegistroVehicular.tsx` lines 92-99), which copies the user's company into the vehicle. Both only fill form fields from data outside this model.
- Staged files enter only as the form's `staged` field. The certificates grid and the notification section that produce them are not part of this model.
- Error messages are not modelled. The chain that builds the alert text from a thrown error is left out, and failures are a set of rejected calls fixed in advance. That set does not depend on the list's state, so a failing call always fails at the point it is reached.
- `CertificadosService.DeleteCertificadosPorPlaca` assumes the plate query returns the `Id`s in ascending order. The query (`certificados.service.ts` lines 167-169) sets no order, so the real batches follow the server's default order. Which records are deleted does not depend on that order.
- `Promise.all` inside a batch of ten is not modelled: the deletions of one batch run one after the other, so a deletion cut short has removed a prefix of the `Id`s. `CertificadosRequests.DeleteRetryRepairs` holds for any subset. Each batch is awaited before the next, as in the source.
- `RegistroVehicular.RetryRepairs` is stated for upserts with a non-empty kind, which is every upsert the form sends. With no kind the query's filter `Certificado eq ''` matches no record, so a second run adds a second record.
- A failing request is not tied to the rejected set: the number of requests a throwing call completed is the parameter `k` of `RegistroVehicular.AfterCalls`. A request on an `Id` the list no longer holds is modelled as changing nothing.
- Queries do not page. PnPjs's default page size and `top(1)` on an empty result are not modelled: a query returns every match.
- Column comparison is exact. SharePoint compares text columns without regard to case; the model matches them exactly, so a stored kind differing only in case is a different kind.
- `sort()` orders by code points. JavaScript compares UTF-16 code units; the two agree below U+10000.
- `toLowerCase`, `toUpperCase` and `normalize("NFD")` are modelled only for ASCII, the Latin-1 letters and the pair ÿ/Ÿ (U+00FF/U+0178). Any other character is left as it is.
- `Text.CaseFolding` holds of the model, not of JavaScript for two characters. JavaScript upper-cases µ to U+039C and ß to "SS"; the model leaves both unchanged.
- `toDate` and `toDateOnly` are the identity on calendar dates. Time zones, the time of day and the UTC shift are left out, and today's date is a parameter.
- `safe` of a missing value (`s || ""`) is not modelled: plates and kinds are always texts.
- `CertificadosSpec.ReplaceByKind` and `CertificadosService.ReplaceAdjuntoById` report a missing record as `NotFound`. In the source, by kind throws an `Error` and by `Id` fails on the server's answer to the unknown `Id`.
- `CertificadosService.ReplaceWith`: the read-back of the attachment names is the store's attachment listing. PnPjs's `select` and `expand` on that request are not modelled.
- Attachment names are assumed distinct within a record. SharePoint refuses a duplicate name; the model would list it twice.
- `Documentacion.DocumentacionSection.Validate` assigns the error list in one step. It does not push the messages one by one.
- `RegistroVehicular.BajaOfBlankPlate`: the source checks the plate untrimmed but uses it trimmed. A plate of spaces therefore shows "Selecciona una placa…", yet still reports the decommission and resets the form. The model keeps this behaviour; it makes no call, and the alerts are not modelled.
- `RegistroVehicular.FumigacionNeverSaved`: the fumigation inputs are validated but `guardarCertificados` never writes them. The model keeps this.
