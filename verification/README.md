# Verified model of the artdaq database core

A Dafny model of the parts of artdaq_database that rewrite document trees or keep state over many
calls, with proofs of what they promise.

* **GUI form and database form of a document** (`Json`, `Text`, `GuiView`, `GuiConvert`,
  `GuiRoundTrip`, `GuiNormalForm`, `GuiFields`, `GuiText`). `GuiConvert` holds the visitors as methods that fill
  nodes in place; each is proved equal to a function of `GuiView`, and the round trips are theorems about
  those functions. Data comes back exactly when data and metadata are coherent; metadata comes back
  in a normal form. What a second trip keeps is a condition on the data and the original metadata.
  `GuiText` joins the conversions with reader and writer.
* **FHiCL values and JSON** (`Escape`, `Fhicl`, `FhiclConvert`, `FhiclRoundTrip`, `FhiclFields`, `LineBuffer`).
  A value converted to data and metadata and back says what was read: its data exactly for the values
  that `Faithful` describes without regard to comments, data and comments exactly for those that it
  describes with them.
* **JSON text** (`JsonGrammar`, `JsonGrammarRoundTrip`). The generator grammar as a printer and the
  parser grammar as a parsing expression grammar (a subset of sections 4, 5 and 7 of RFC 8259).
* **Database record** (`Overlay`, `DatabaseRecord`, `RecordHistory`, `RecordFields`) and **document store**
  (`DocumentStore`, `StoreFields`), with **path edits** of a document (`PathEdit`). `DatabaseRecord.Apply` is the
  abstract step; the classes over lists and fields are proved to take exactly that step.
* **Worker pool** (`Multitasker`, `MergedResults`): a step relation with a program counter for every
  thread, a queue, a wait set and the owner's protocol. Every critical section is one step. The merged
  text of the results is read back by the JSON grammar.
* **Global configurations** (`Composition`, `CompositionStore`, `GlobalConfiguration`, `CompositionFields`,
  `StorePool`): the diff of two compositions, the interleavings of assignment tasks, the pool that runs them,
  when the parallel store agrees with the sequential one, and what either leaves in the documents.
* **Base64** (`Base64`): both loops with their small byte arrays, proved against the 24-bit input
  groups of section 4 of RFC 4648.

`GuiFields`, `FhiclFields`, `RecordFields`, `StoreFields` and `CompositionFields` say what each
operation leaves where, in terms of names, keys, places and literal texts, so that the functions which the
methods are proved against are fixed from outside.

Reading aids. An exception is `None`, `Failed` or a `Reply`; the state a visitor leaves behind when
it throws is discarded by its callers and is not described. Every operation reads the clock at most
once per `now` parameter, and timestamps are opaque texts. A generated object id is a parameter,
required to be unused where that matters. Searches (`SearchIndex`, `findDocumentIDs`) are the
parameters `found`, `target`, `resolve`, `search`, `listing` and `duplicate`.

## What the proofs found

Each point names the exact condition and, in brackets, a lemma at a concrete input.

* Coherent data always survives the GUI round trip, but members that share a key also share one looked-up
  metadata entry afterwards. `GuiNormalForm.RoundTripIdempotent` says for which data and metadata a second
  trip changes nothing (`DuplicateKeysBreak`, `RepeatedTextSettled`). For these documents it also says when
  the second view equals the first: not always with canonical metadata, since a text behind a table of the
  same key takes that table's type (`RepeatedKeyChangesView`). Distinct keys, none of them `children` below
  the top, are enough (`PlainSettled`).
* What the FHiCL round trip loses of the data (names with protections, nesting, order, raw text): atoms of
  unknown kind, strings that are one lone quote, keys that read as an include directive; inside sequences
  also every protection, numbers with a backslash, and other texts that `need_quotes` catches. Comments play
  no part in this (`FhiclRoundTrip.FhiclRoundTrip` with `texts` false, both directions; `UnknownLost`,
  `LoneQuoteLost`, `DottedIdLost`).
* What it loses of the comments besides (`texts` true, both directions): the text above a value when it
  starts with a slash or holds an include directive, the text behind a table, all text around a key that
  holds the name of an include directive, and for an element on a line of its own every text above and the
  text behind anything but a sequence (`ElementAnnotationLost`, `SlashCommentLost`). The metadata holds the
  text behind such an element and the syntax tree has a place for it, but the conversion back does not fill
  it. A text counts for every value on its line and on the line below, except that an element on the line of
  its sequence has none: there the text is the sequence's and is kept (`OneLineAnnotationKept`), and it is
  written once more behind a sequence that is itself such an element.
* Removing a name that occurs twice from a list fails after the elements were erased, and nothing
  restores them (`RecordHistory.AbortedExactly`, `DocumentStore.BuilderAtomic`; `RepeatedNameErased`). Lists
  with distinct names never get there. In ovlMovableList.h:100-136 the early "ignored" result for an empty
  list is built but not returned, so removing from it reports a missing name.
* The update log replays to the record except for two kinds of operation: the wipe of a list that
  holds something, and such an aborted removal (`RecordHistory.ApplyReplays`; `WipeIsNotLogged`).
* A store of a writable document can land on the key of a readonly one and replace it
  (`DocumentStore.FrozenSurvivesStore`; `ReadonlyReplaced`).
* Adding or removing an entity writes the document back with the entity "notprovided". So every such document
  gets that entity too, and removing it leaves it there (`StoreFields.EntityAdded`, `StoreFields.EntityRemoved`).
* Passing the result of `replaceChild` back to `replaceChild` restores the document except for one
  family: path `payload`, old value an object with one key `payload` (`PathEdit.ReturnedValueRestores`;
  `PayloadNotRestored`).
* When the search for an existing composition throws, the sequential store reports a failure and does
  nothing, while the parallel one takes the composition for absent and assigns every member
  (configurationdbifc.h:412-424 and 515-532). When an assignment fails or a member does not validate, the
  parallel store makes assignments that the sequential one does not (`GlobalConfiguration.VersionsAgree`;
  `FailedSearchDisagrees`, `MissingDocumentDisagrees`).
* Assigning and unassigning search for the composition behind their write and fail, with the document
  written, when nothing is found (dispatch_filedb.cpp:172-174, 376-385). How these searches end depends on
  all documents at that moment, so the two versions are compared for any ends in either of them.
* A repeated key in a new composition can make the diff miss a version (`Composition.DiffExact`;
  `RepeatedKeyMissed`).
* The merged text of no results is not JSON: what is overwritten is the opening bracket of the list
  (`MergedResults.MergedRead`; `NothingMerged`).

## Model

| member | source | states |
|---|---|---|
| `Json.AtFinds` | artdaq-database/DataFormats/shared_types.h:176-186 | `at` gives the value of the first member with the key and throws exactly when no member has it |
| `Json.AtPut` | artdaq-database/DataFormats/shared_types.h:138-150 | after assignment through `operator[]` the key reads the new value and every other key what it read before; a present key keeps the length |
| `Json.PutTwice` | artdaq-database/DataFormats/shared_types.h:138-150 | a second assignment to a key overrides the first |
| `Json.PutCommutes` | artdaq-database/DataFormats/shared_types.h:138-150 | assignments to two present keys commute, order of members included |
| `Json.PutSame` | artdaq-database/DataFormats/shared_types.h:138-150 | assigning the value a key already has changes nothing |
| `Json.CountZero` | artdaq-database/DataFormats/shared_types.h:164-174 | `count` is zero exactly when `at` throws |
| `Json.DeleteAppended` | artdaq-database/DataFormats/shared_types.h:199-211 | `delete_at` undoes the append of a key that was missing |
| `Json.AtItsPlace` | artdaq-database/DataFormats/shared_types.h:138-211 | reading, assigning and erasing a key act on its first member, at its place, and leave every other member where it is |
| `Json.CountOnly` | artdaq-database/DataFormats/shared_types.h:164-174 | `count` is one exactly when one member and no other has the key |
| `Text.AnnotateIdempotent` | artdaq-database/SharedCommon/helper_functions.cpp:172-184 | annotating twice is annotating once, and the result is empty or starts with `#` |
| `Text.AnnotateMeaning` | artdaq-database/SharedCommon/helper_functions.cpp:172-184 | every text is blanks, a core with no blank at either end, and blanks; annotating gives the empty text for an empty core, the core when it starts with `#`, and else `#` and the core |
| `Text.AnnotateCore` | artdaq-database/SharedCommon/helper_functions.cpp:172-184 | the same for every such division of the text |
| `Text.RequoteDequote` | artdaq-database/SharedCommon/helper_functions.cpp:148-163 | putting quotes back undoes `dequote` exactly on texts that are not one lone quote |
| `Text.DecimalInjective` | artdaq-database/DataFormats/Fhicl/convertfhicl2jsondb.cpp:156-173 | different sequence indices print differently |
| `GuiConvert.JsonNode.MakeChild` | artdaq-database/DataFormats/Json/convertjson2guijson.h:98-126 | an object node gets a named member, an array node an element, at the end |
| `GuiConvert.JsonNode.MakeChildOfChildren` | artdaq-database/DataFormats/Json/convertjson2guijson.h:128-143 | the entry goes to the end of `children`, which is created when missing; a `children` that is no object is refused and nothing changes |
| `GuiConvert.Db2GuiRow` | artdaq-database/DataFormats/Json/convertjson2guijson.cpp:129-255 | one member becomes one row with type, name, comment and either children or value and annotation, or the whole conversion fails |
| `GuiConvert.Db2GuiMembers` | artdaq-database/DataFormats/Json/convertjson2guijson.cpp:129-255 | the loop over a table's members gives their rows in order, each with the metadata that the two-place lookup finds |
| `GuiConvert.Db2GuiItems` | artdaq-database/DataFormats/Json/convertjson2guijson.cpp:129-255 | the loop over a sequence's elements gives rows named by index |
| `GuiConvert.Gui2Db` | artdaq-database/DataFormats/Json/convertjson2guijson.cpp:326-427 | the loop over rows builds data and metadata together in the caller's two nodes |
| `GuiConvert.Gui2DbRow` | artdaq-database/DataFormats/Json/convertjson2guijson.cpp:326-427 | one row adds one data child and its metadata, by row type |
| `GuiConvert.Gui2DbTree` | artdaq-database/DataFormats/Json/convertjson2guijson.cpp:362-415 | table and sequence rows of a sequence put their metadata into the sequence's own node, scalars go under `children` |
| `GuiConvert.DocumentRoundTrip` | artdaq-database/DataFormats/Json/convertjson2guijson.cpp:75-127 | a whole document to GUI form and back keeps everything but metadata, which becomes normal, and `converted`, which is emptied |
| `GuiText.TextRoundTrip` | artdaq-database/DataFormats/Json/convertjson2guijson.cpp:75-324 | reader, visitors and writer together, both ways: from any text of a coherent document with complete escapes and without decimals the two conversions lead to the printed form of the same document with normal metadata, which reads as that document |
| `GuiText.RowClean` | artdaq-database/DataFormats/Json/convertjson2guijson.cpp:129-255 | the rows of a document with complete escapes have complete escapes, so the GUI form can be printed and read |
| `GuiText.NormalClean` | artdaq-database/DataFormats/Json/convertjson2guijson.cpp:326-427 | so has the metadata that comes back |
| `GuiText.AnnotateComplete` | artdaq-database/SharedCommon/helper_functions.cpp:172-184 | trimming and annotating keep escapes complete |
| `GuiText.TrimmedBackslash` | artdaq-database/SharedCommon/helper_functions.cpp:172-184 | a concrete annotation without complete escapes that can no longer be printed after annotating |
| `GuiRoundTrip.DataRoundTrip` | artdaq-database/DataFormats/Json/convertjson2guijson.cpp:129-427 | the data tree comes back exactly (keys, order, duplicates, nesting, scalar kinds, any depth) if and only if data and metadata are coherent, and then the metadata is the normal form |
| `GuiRoundTrip.RowForward` | artdaq-database/DataFormats/Json/convertjson2guijson.cpp:129-427 | the row of a coherent value, taken apart, adds that value and its normal metadata to whatever was built before |
| `GuiRoundTrip.RowBackward` | artdaq-database/DataFormats/Json/convertjson2guijson.cpp:129-427 | a value whose row gives it back is coherent with its metadata |
| `GuiNormalForm.RoundTripIdempotent` | artdaq-database/DataFormats/Json/convertjson2guijson.cpp:44-71 | for all coherent documents, repeated keys included, a second round trip returns the same data and metadata if and only if every member is served by the first with its key, a condition on data and original metadata; and then the second GUI view equals the first exactly when the original metadata is canonical |
| `GuiNormalForm.PlainSettled` | artdaq-database/DataFormats/Json/convertjson2guijson.cpp:44-71 | distinct keys, none of them `children` below the top, meet that condition |
| `GuiNormalForm.ServesNormal` | artdaq-database/DataFormats/Json/convertjson2guijson.cpp:362-415 | what was rebuilt for one value gives another its own normal metadata exactly when the two are of one kind and their members and elements serve each other, or the later is a text with a blank annotation behind a table |
| `GuiNormalForm.SameRow` | artdaq-database/DataFormats/Json/convertjson2guijson.cpp:129-255 | the row shown with such metadata is the row shown before exactly when the original metadata is canonical |
| `GuiNormalForm.NodeLookup` | artdaq-database/DataFormats/Json/convertjson2guijson.cpp:44-71 | in rebuilt metadata a key leads to the entry of the first member with it; below the top the key `children` leads to no metadata |
| `GuiNormalForm.ItemsLookup` | artdaq-database/DataFormats/Json/convertjson2guijson.cpp:44-71 | in a rebuilt sequence node every index finds its own entry in one of the two places, and no other index finds any |
| `GuiNormalForm.DuplicateKeysBreak` | artdaq-database/DataFormats/Json/convertjson2guijson.cpp:44-71 | a concrete table with a repeated key whose second round trip is not coherent |
| `GuiNormalForm.RepeatedKeyChangesView` | artdaq-database/DataFormats/Json/convertjson2guijson.cpp:44-71 | a concrete document that the second trip keeps and whose view it changes |
| `GuiFields.TreeRows` | artdaq-database/DataFormats/Json/convertjson2guijson.cpp:129-255 | the row of a table or a sequence: type, name and comment, with their defaults where there is no metadata, and the rows of its parts |
| `GuiFields.MemberRowAt` | artdaq-database/DataFormats/Json/convertjson2guijson.cpp:129-255 | the i-th row is that of the i-th member, with the metadata found for its key |
| `GuiFields.AllMemberRows` | artdaq-database/DataFormats/Json/convertjson2guijson.cpp:129-255 | a table has rows exactly when every member has one; one that has none stops the conversion |
| `GuiFields.AllItemRows` | artdaq-database/DataFormats/Json/convertjson2guijson.cpp:129-255 | so with the elements of a sequence, by index |
| `GuiFields.TextTaken` | artdaq-database/DataFormats/Json/convertjson2guijson.cpp:394-415 | a row of a text, taken back into a table: the value under the name, and metadata of type, comment and annotation, the latter blank-trimmed and with a `#`; a text typed as a table becomes a string |
| `GuiFields.TextTakenInSequence` | artdaq-database/DataFormats/Json/convertjson2guijson.cpp:400-407 | the same inside a sequence, where the metadata goes to the end of `children` and nothing else changes |
| `GuiFields.TreeTaken` | artdaq-database/DataFormats/Json/convertjson2guijson.cpp:362-393 | a row with children, taken back: a new data node under the name and metadata of the given form |
| `GuiFields.SequenceAnnotated` | artdaq-database/DataFormats/Json/convertjson2guijson.cpp:370-375 | the annotation on the row of a sequence is trimmed and marked like that of a text |
| `GuiFields.TreeTakenInSequence` | artdaq-database/DataFormats/Json/convertjson2guijson.cpp:362-393 | inside a sequence such a node is the next element; its metadata goes beside `children` |
| `GuiFields.RowTaken` | artdaq-database/DataFormats/Json/convertjson2guijson.cpp:326-427 | which rows with a type are taken into a table, and which stop the conversion |
| `GuiFields.ShownDocuments` | artdaq-database/DataFormats/Json/convertjson2guijson.cpp:75-127 | a document is converted to the GUI form exactly when its data and metadata are objects and have rows |
| `GuiFields.TakenDocuments` | artdaq-database/DataFormats/Json/convertjson2guijson.cpp:257-324 | a document is converted back exactly when the GUI form has rows that are taken and the old data and metadata are objects |
| `GuiFields.GuiDocument` | artdaq-database/DataFormats/Json/convertjson2guijson.cpp:75-127 | to the GUI: rows and change log are under `converted`, all other fields keep their values |
| `GuiFields.DbDocument` | artdaq-database/DataFormats/Json/convertjson2guijson.cpp:257-324 | from the GUI: data and metadata are those rebuilt from the rows, the change log is that of the GUI form if it has one, `converted` is empty, all other fields keep their values |
| `GuiFields.ChangelogEdited` | artdaq-database/DataFormats/Json/convertjson2guijson.cpp:295-297 | a change log edited in the GUI is the document's afterwards |
| `Escape.ToJsonString` | artdaq-database/DataFormats/Fhicl/helper_functions.cpp:25-55 | the escaping loop computes `Escaped` |
| `Escape.FromJsonString` | artdaq-database/DataFormats/Fhicl/helper_functions.cpp:57-98 | the unescaping loop computes `Unescaped`, with unknown escapes and a backslash at the end dropped |
| `Escape.EscapeRoundTrip` | artdaq-database/DataFormats/Fhicl/helper_functions.cpp:25-98 | unescaping an escaped text gives it back, for all texts |
| `Escape.UnescapedLength` | artdaq-database/DataFormats/Fhicl/helper_functions.cpp:57-98 | unescaping is the identity exactly on texts without a backslash |
| `Escape.EscapedPrintable` | artdaq-database/DataFormats/Fhicl/helper_functions.cpp:25-55 | no escaped text holds one of the control characters that have an escape |
| `FhiclConvert.Fcl2Json` | artdaq-database/DataFormats/Fhicl/convertfhicl2jsondb.cpp:35-202 | one value becomes a data node and a metadata node, or the conversion throws |
| `FhiclConvert.Fcl2JsonElements` | artdaq-database/DataFormats/Fhicl/convertfhicl2jsondb.cpp:156-173 | the sequence loop appends data and metadata under the running index |
| `FhiclConvert.Fcl2JsonMembers` | artdaq-database/DataFormats/Fhicl/convertfhicl2jsondb.cpp:174-190 | the table loop appends the members that the prolog options select |
| `FhiclFields.MembersTaken` | artdaq-database/DataFormats/Fhicl/convertfhicl2jsondb.cpp:174-190 | the keys of data and metadata are, in order, those of the members outside the prolog in the default mode, inside it in the prolog mode, all in the combined mode, and none without either |
| `FhiclFields.Converts` | artdaq-database/DataFormats/Fhicl/convertfhicl2jsondb.cpp:35-202 | the conversion throws exactly when some value that is asked for has an empty key, no comment map or no line number, include keys excepted |
| `FhiclFields.TypeNames` | artdaq-database/DataFormats/Fhicl/convertfhicl2jsondb.cpp:35-154 | the type name of every kind of value, strings by their quotes |
| `FhiclFields.StringData` | artdaq-database/DataFormats/Fhicl/convertfhicl2jsondb.cpp:139-154 | the data of a string is its text without the quotes, escaped |
| `FhiclFields.TextFields` | artdaq-database/DataFormats/Fhicl/convertfhicl2jsondb.cpp:74-117 | comment and annotation are the texts on the line above and on the line itself, escaped, where they count |
| `FhiclFields.ProtectionFields` | artdaq-database/DataFormats/Fhicl/convertfhicl2jsondb.cpp:119-123 | a protection is a field of the metadata and a suffix of the name on the way back |
| `FhiclConvert.Json2FclItems` | artdaq-database/DataFormats/Fhicl/convertfhicl2jsondb.cpp:344-361 | the sequence loop, which stops silently at a missing index |
| `FhiclConvert.Json2FclAtoms` | artdaq-database/DataFormats/Fhicl/convertfhicl2jsondb.cpp:363-379 | the table loop, which stops silently at a missing key |
| `FhiclFields.ItemsCollected` | artdaq-database/DataFormats/Fhicl/convertfhicl2jsondb.cpp:344-361 | a sequence is converted up to its first element that lacks metadata or a field of it, without an error, and fails at the first that cannot be converted |
| `FhiclFields.AtomsCollected` | artdaq-database/DataFormats/Fhicl/convertfhicl2jsondb.cpp:363-379 | so is a table |
| `FhiclFields.ItemTexts` | artdaq-database/DataFormats/Fhicl/convertfhicl2jsondb.cpp:206-254 | what a text inside a sequence becomes, by its type |
| `FhiclFields.KeyedTexts` | artdaq-database/DataFormats/Fhicl/convertfhicl2jsondb.cpp:256-342 | what a text under a key becomes, by its type |
| `FhiclFields.TypedValues` | artdaq-database/DataFormats/Fhicl/convertfhicl2jsondb.cpp:256-342 | numbers and booleans of JSON stay what they are, and are refused under another type |
| `FhiclFields.TextTypedAsTable` | artdaq-database/DataFormats/Fhicl/convertfhicl2jsondb.cpp:256-402 | a text typed as a table is a string with quotes on demand and has no annotation |
| `FhiclRoundTrip.FhiclRoundTrip` | artdaq-database/DataFormats/Fhicl/convertfhicl2jsondb.cpp:35-402 | two equivalences: keys, protection suffixes, nesting, element order and raw atom text with its quotes come back if and only if the value is `Faithful` without texts, whatever comments there are; these and the texts above and behind every member and element come back if and only if it is `Faithful` with texts |
| `FhiclRoundTrip.UnknownLost` | artdaq-database/DataFormats/Fhicl/convertfhicl2jsondb.cpp:256-402 | the data of an atom of unknown kind does not come back |
| `FhiclRoundTrip.LoneQuoteLost` | artdaq-database/SharedCommon/helper_functions.cpp:148-163 | a string of one double quote does not come back |
| `FhiclRoundTrip.DottedIdLost` | artdaq-database/DataFormats/Fhicl/convertfhicl2jsondb.cpp:206-254 | a dotted table id in a sequence does not come back |
| `FhiclRoundTrip.ElementAnnotationLost` | artdaq-database/DataFormats/Fhicl/convertfhicl2jsondb.cpp:206-254 | a concrete sequence with a commented element on its own line: the data comes back, the comment is in the metadata and not in the tree that is written |
| `FhiclRoundTrip.OneLineAnnotationKept` | artdaq-database/DataFormats/Fhicl/convertfhicl2jsondb.cpp:394-396 | the same sequence on one line: data and comment come back, the comment behind the sequence |
| `FhiclRoundTrip.SlashCommentLost` | artdaq-database/DataFormats/Fhicl/convertfhicl2jsondb.cpp:82-92 | a comment that starts with a slash does not come back, the data under it does |
| `FhiclRoundTrip.AtomTrip` | artdaq-database/DataFormats/Fhicl/convertfhicl2jsondb.cpp:256-402 | both equivalences for every value under a key, and the result is never a silent stop |
| `FhiclRoundTrip.ItemTrip` | artdaq-database/DataFormats/Fhicl/convertfhicl2jsondb.cpp:206-254 | the data of an element of a sequence comes back exactly when it has no protection and its content survives unescaping and quoting on demand; its texts too exactly when, in addition, there are none but those of its sequence's line and one behind a sequence |
| `FhiclRoundTrip.ContentTrip` | artdaq-database/DataFormats/Fhicl/convertfhicl2jsondb.cpp:256-402 | the content of a value comes back, with or without texts, exactly when its kind and quotes allow it and everything below it is faithful in the same sense |
| `FhiclRoundTrip.ItemText` | artdaq-database/DataFormats/Fhicl/convertfhicl2jsondb.cpp:206-254 | the text of such an element survives exactly when `need_quotes` finds nothing in it |
| `FhiclRoundTrip.ElementsTrip` | artdaq-database/DataFormats/Fhicl/convertfhicl2jsondb.cpp:344-361 | no sequence is cut short by the `out_of_range` catch, whatever its elements are |
| `FhiclRoundTrip.MembersTrip` | artdaq-database/DataFormats/Fhicl/convertfhicl2jsondb.cpp:363-379 | no table is cut short by the `out_of_range` catch |
| `FhiclRoundTrip.ParallelMembers` | artdaq-database/DataFormats/Fhicl/convertfhicl2jsondb.cpp:174-190 | data and metadata of a table have the same keys in the same order |
| `FhiclRoundTrip.ParallelElements` | artdaq-database/DataFormats/Fhicl/convertfhicl2jsondb.cpp:156-173 | the metadata of a sequence is keyed by the printed indices, one for each element |
| `LineBuffer.Buffer.RtrimLines` | artdaq-database/DataFormats/Fhicl/helper_functions.cpp:198-250 | the in-place trim with read and write cursors equals: split at newlines, trim blanks from every line's end, join, end in a newline; an empty buffer stays empty |
| `LineBuffer.Buffer.CopyLine` | artdaq-database/DataFormats/Fhicl/helper_functions.cpp:198-250 | one round moves one trimmed line down, keeps the write cursor at or below the read cursor and leaves the unread text alone |
| `LineBuffer.TrimLineMeaning` | artdaq-database/DataFormats/Fhicl/helper_functions.cpp:198-250 | a trimmed line is the longest prefix that does not end in a blank |
| `LineBuffer.TrimmedIdempotent` | artdaq-database/DataFormats/Fhicl/helper_functions.cpp:198-250 | trimming twice is trimming once, and only the empty text trims to nothing |
| `LineBuffer.TrimmedMeaning` | artdaq-database/DataFormats/Fhicl/helper_functions.cpp:198-250 | the lines of the text, each without the spaces, tabs and carriage returns at its end, joined by newlines, and a newline behind them unless one is there |
| `LineBuffer.SplitJoin` | artdaq-database/DataFormats/Fhicl/helper_functions.cpp:198-250 | lines survive joining and splitting |
| `LineBuffer.JoinSplit` | artdaq-database/DataFormats/Fhicl/helper_functions.cpp:198-250 | a text survives splitting and joining |
| `JsonGrammarRoundTrip.IntegerExactly` | artdaq-database/DataFormats/Json/json_reader.h:32 | a number is read as an integer, with its value and the text behind it, exactly when it is an optional sign and all the digits there are, of 64 bits, with no point behind |
| `JsonGrammarRoundTrip.DecimalSpelled` | artdaq-database/DataFormats/Json/json_reader.h:32 | a number with a point, and an exponent or none, is read as a decimal with the value that sign, digits and exponent spell |
| `JsonGrammarRoundTrip.OneAndAHalf` | artdaq-database/DataFormats/Json/json_reader.h:32 | `1.5` is one and a half |
| `JsonGrammarRoundTrip.MinusOneQuarter` | artdaq-database/DataFormats/Json/json_reader.h:32 | ` -2.5E-1,` is minus one quarter with a comma behind |
| `JsonGrammarRoundTrip.TrailingComma` | artdaq-database/DataFormats/Json/json_reader.h:24 | an object with a comma behind its last member is refused |
| `JsonGrammarRoundTrip.PrintedMembers` | artdaq-database/DataFormats/Json/json_writer.h:18-34 | the printed form of an object: keys and values with a colon between spaces, every member on its line |
| `JsonGrammarRoundTrip.PrintedItems` | artdaq-database/DataFormats/Json/json_writer.h:18-34 | the printed form of arrays and scalars |
| `JsonGrammarRoundTrip.Choice` | artdaq-database/DataFormats/Json/json_reader.h:32 | the ordered choice of a value is decided by its first character |
| `JsonGrammarRoundTrip.ScanClosed` | artdaq-database/DataFormats/Json/json_reader.h:18-22 | the greedy string rule ends at the quote that was printed exactly for closed strings: no bare quote, no backslash that would take the closing quote |
| `JsonGrammarRoundTrip.ParsedStringClosed` | artdaq-database/DataFormats/Json/json_reader.h:18-22 | every string that was read is closed |
| `JsonGrammarRoundTrip.EscapedIsClosed` | artdaq-database/DataFormats/Fhicl/helper_functions.cpp:25-55 | what `to_json_string` produces can always be delimited by quotes |
| `JsonGrammarRoundTrip.ValueTrip` | artdaq-database/DataFormats/Json/json_writer.h:18-34 | every printed value is read back and the text behind it is left, at any depth, with empty objects and lists |
| `JsonGrammarRoundTrip.ParsedReadable` | artdaq-database/DataFormats/Json/json_reader.h:15-42 | whatever was read has closed strings and 64-bit integers at every depth |
| `JsonGrammarRoundTrip.WriteRead` | artdaq-database/DataFormats/Json/json_writer.cpp:16-44 | a non-empty document is read back from its printed form, with any text behind it, if and only if its strings are closed and its integers have 64 bits |
| `JsonGrammarRoundTrip.CompleteWriteRead` | artdaq-database/DataFormats/Json/json_reader.h:18-22 | the same for strings of complete escapes without a bare quote, independent of how a backslash that starts no escape is treated |
| `JsonGrammarRoundTrip.EscapedComplete` | artdaq-database/DataFormats/Fhicl/helper_functions.cpp:25-55 | what `to_json_string` produces has only complete escapes |
| `JsonGrammarRoundTrip.ReadWriteRead` | artdaq-database/DataFormats/Json/json_reader.cpp:16-44 | a document that was read can be written and read again without change |
| `JsonGrammarRoundTrip.WriteInjective` | artdaq-database/DataFormats/Json/json_writer.cpp:16-44 | different documents print differently, and no printed document starts another |
| `Overlay.FixedList.Add` | artdaq-database/Overlay/ovlFixedList.h:86-104 | a new name is appended to the array that the list mirrors, a present one is ignored |
| `Overlay.FixedList.Remove` | artdaq-database/Overlay/ovlFixedList.h:106-132 | all entries of the name are erased and the size check decides the reply; an empty list ignores |
| `Overlay.FixedList.MakeList` | artdaq-database/Overlay/ovlFixedList.h:77-84 | the rebuilt list mirrors the array, names in order |
| `Overlay.FixedList.Wipe` | artdaq-database/Overlay/ovlFixedList.h:68-75 | list and array become empty |
| `Overlay.MovableList.Add` | artdaq-database/Overlay/ovlMovableList.h:80-98 | a new alias becomes active, history is untouched |
| `Overlay.MovableList.Remove` | artdaq-database/Overlay/ovlMovableList.h:100-136 | an active alias moves to the end of history with its removal time; a missing one changes neither list |
| `Overlay.ErasedCount` | artdaq-database/Overlay/ovlFixedList.h:106-132 | the size check fails exactly when the name occurs twice or more, and reports a missing name exactly when it does not occur |
| `Overlay.WithoutDistinct` | artdaq-database/Overlay/ovlFixedList.h:106-132 | removal keeps names distinct and takes the name out |
| `DatabaseRecord.OverlaidRecord.Perform` | artdaq-database/Overlay/ovlDatabaseRecord.cpp:100-341 | every operation on lists, fields and log changes the record and replies exactly as `Apply` says |
| `DatabaseRecord.OverlaidRecord.Post` | artdaq-database/Overlay/ovlBookkeeping.h:56-90 | an update is appended to the log unless the readonly flag is set |
| `RecordHistory.LogReplays` | artdaq-database/Overlay/ovlDatabaseRecord.cpp:151-341 | after every run of traced operations, replaying the appended log entries over the first record gives the current names, in order, and the version, collection and type |
| `RecordHistory.ApplyReplays` | artdaq-database/Overlay/ovlDatabaseRecord.cpp:151-341 | one operation appends at most one entry, and that replays to its change if and only if the operation is no wipe of a non-empty list and no removal, from a writable record, of a name that occurs twice |
| `RecordHistory.DistinctRuns` | artdaq-database/Overlay/ovlFixedList.h:86-132 | names that are distinct at the start stay distinct over every run, and every run without wipes is then traced |
| `RecordHistory.WipeIsNotLogged` | artdaq-database/Overlay/ovlFixedList.h:68-75 | a wipe leaves the log, so replay misses it unless the list was empty |
| `RecordHistory.FailureKeepsRecord` | artdaq-database/Overlay/ovlDatabaseRecord.cpp:151-341 | a reported failure left the record unchanged; a failed size check did not |
| `RecordHistory.AbortedExactly` | artdaq-database/Overlay/ovlMovableList.h:100-136 | the size check fails exactly when a writable record is asked to remove a name that occurs twice |
| `RecordHistory.PostUpdateNeverRefuses` | artdaq-database/Overlay/ovlBookkeeping.h:56-90 | the only readonly refusals are those of the operations' own guards: the one inside `postUpdate` is never reached |
| `RecordHistory.FrozenKept` | artdaq-database/Overlay/ovlDatabaseRecord.cpp:132-149 | a readonly or deleted record changes only by the operations without a guard: marking it deleted, a new id and the two wipes; each changes its one field |
| `RecordHistory.FlagsMonotone` | artdaq-database/Overlay/ovlDatabaseRecord.cpp:134-149 | no operation clears a flag, and only marking sets one |
| `RecordHistory.AliasesConserved` | artdaq-database/Overlay/ovlMovableList.h:80-136 | active and history names together change only by an alias that is new |
| `RecordFields.Additions` | artdaq-database/Overlay/ovlDatabaseRecord.cpp:151-322 | an addition to a writable record leaves the name in its own list, at the end when it is new, is logged with event, time and entry, and changes nothing else |
| `RecordFields.Removals` | artdaq-database/Overlay/ovlDatabaseRecord.cpp:169-340 | a removal leaves every entry but those of the name, in order; by how often the name was there it is logged with the time of removal, reported missing, or fails; a removed alias ends the history |
| `RecordFields.Texts` | artdaq-database/Overlay/ovlDatabaseRecord.cpp:223-286 | version, collection and type are set as given, an empty text as "notprovided", and logged exactly when that changes them |
| `RecordFields.ErasedLoses` | artdaq-database/Overlay/ovlFixedList.h:106-132 | with distinct names an erased entry leaves the list with the ones before and behind it; the report is by how often the name was there |
| `DocumentStore.BuilderAtomic` | artdaq-database/JsonDocument/JSONDocumentBuilder.cpp:38-265 | a builder operation that fails leaves the record unchanged when names are distinct, and in general exactly when it is not the removal, from a writable record, of a name that occurs twice |
| `DocumentStore.RepeatedNameErased` | artdaq-database/Overlay/ovlFixedList.h:106-132 | a list that names "a" twice is emptied by a removal that fails |
| `DocumentStore.DocumentBuilder.Perform` | artdaq-database/JsonDocument/JSONDocumentBuilder.cpp:38-265 | the builder takes the step of its record and swallows failures |
| `DocumentStore.Database.Write` | artdaq-database/StorageProviders/FileSystemDB/provider_filedb_readwrite.cpp:77-223 | the collection is named by the document, the filter or the payload, in this order, or the write throws; the filter's id is the target; without one the document is new and is refused when its id or its version is taken; the store changes at that key only |
| `DocumentStore.Database.Store` | artdaq-database/ConfigurationDB/detail_managedocument.cpp:203-253 | a frozen document gets a new id unless overwriting, a writable one the options' names, then it is written |
| `DocumentStore.Database.Handle` | artdaq-database/ConfigurationDB/detail_managedocument.cpp:512-670 | each read-modify-write operation, step by step, equals `Serve` |
| `DocumentStore.FrozenStoreIsNew` | artdaq-database/ConfigurationDB/detail_managedocument.cpp:203-230 | storing a readonly or deleted record writes it under the generated id, which is not taken, and otherwise unchanged |
| `DocumentStore.FrozenSurvivesStore` | artdaq-database/ConfigurationDB/detail_managedocument.cpp:203-253 | a frozen stored document survives a store exactly when the new document is frozen itself or goes to another key |
| `DocumentStore.ReadonlyReplaced` | artdaq-database/ConfigurationDB/detail_managedocument.cpp:203-253 | a concrete writable document that replaces a readonly one |
| `DocumentStore.GuiStoreIsNew` | artdaq-database/ConfigurationDB/detail_managedocument.cpp:196-203 | a document from the GUI never overwrites |
| `DocumentStore.ServeWrites` | artdaq-database/ConfigurationDB/dispatch_filedb.cpp:348-427 | an operation changes no stored document but its target, and that one, when frozen, only in its deleted flag; a store in database format under the guard of FrozenSurvivesStore |
| `DocumentStore.FrozenForever` | artdaq-database/ConfigurationDB/detail_managedocument.cpp:512-670 | over any run of operations and guarded stores a stored readonly or deleted record stays stored, keeps every field but `isdeleted`, and no set flag is cleared |
| `StoreFields.OptionsAdd` | artdaq-database/ConfigurationDB/detail_managedocument.cpp:214-231 | what the options add to a writable record: configuration, entity and run come to its lists, each at most once and with the time, version and collection are theirs, all else stays |
| `StoreFields.EntityAdded` | artdaq-database/ConfigurationDB/detail_managedocument.cpp:512-550 | after `add_entity` the stored document has its earlier entities at their places, the new one and "notprovided", and what the other options add; no other document changes |
| `StoreFields.EntityRemoved` | artdaq-database/ConfigurationDB/detail_managedocument.cpp:552-590 | after `remove_entity` it has its earlier entities without the removed one, and "notprovided" |
| `StoreFields.DocumentMarked` | artdaq-database/ConfigurationDB/detail_managedocument.cpp:592-670 | marking sets the one flag and nothing else; a deleted document is not marked readonly |
| `StoreFields.ConfigurationAssigned` | artdaq-database/ConfigurationDB/dispatch_filedb.cpp:348-386 | the configuration comes to the document's, with a log entry, and nothing else changes |
| `StoreFields.ConfigurationUnassigned` | artdaq-database/ConfigurationDB/dispatch_filedb.cpp:388-427 | the configuration goes from the document's, and nothing but the log changes besides |
| `StoreFields.DbStored` | artdaq-database/ConfigurationDB/detail_managedocument.cpp:203-253 | a writable document comes under its id and the options' collection with what the options add, a frozen one as it is under the generated id |
| `StoreFields.GuiStored` | artdaq-database/ConfigurationDB/detail_managedocument.cpp:196-253 | a document from the GUI comes under the generated id with the options' configuration and entity alone |
| `StoreFields.ProviderWrites` | artdaq-database/StorageProviders/FileSystemDB/provider_filedb_readwrite.cpp:77-223 | where a writable document is written, what is written there, and when a new one is refused |
| `PathEdit.SplitDotted` | artdaq-database/JsonDocument/JSONDocument_utils.cpp:110-127 | splitting tokens joined by dots gives the tokens, after any separators |
| `PathEdit.JSONDocument.FindChildValue` | artdaq-database/JsonDocument/JSONDocument.cpp:50-93 | the loop down the path finds what `Find` finds |
| `PathEdit.JSONDocument.ReplaceChild` | artdaq-database/JsonDocument/JSONDocument.cpp:142-195 | going down with checks, changing the table at the end and rebuilding upwards succeeds exactly where a value is found; then the payload is found there, every other branch is as before and the old value is returned under the path; an edit that throws changes nothing |
| `PathEdit.JSONDocument.InsertChild` | artdaq-database/JsonDocument/JSONDocument.cpp:198-252 | succeeds exactly where the parent is an object without the key; then the payload is found there, deleting it restores the document and other branches are as before; an edit that throws changes nothing |
| `PathEdit.JSONDocument.DeleteChild` | artdaq-database/JsonDocument/JSONDocument.cpp:255-303 | returns what was found; then one occurrence of the key fewer is there and other branches are as before; an edit that throws changes nothing |
| `PathEdit.JSONDocument.Descend` | artdaq-database/JsonDocument/JSONDocument.cpp:142-303 | the descent ends at the table that holds the last key, or where no edit is possible |
| `PathEdit.EditsAtLeaf` | artdaq-database/JsonDocument/JSONDocument.cpp:142-303 | an edit at a path is the edit of the table that the path leads to, rebuilt upwards |
| `PathEdit.JSONDocument.AppendChild` | artdaq-database/JsonDocument/JSONDocument.cpp:306-325 | the payload is appended to the array at the path, and only there; anything but an array is refused |
| `PathEdit.FindAfterEdit` | artdaq-database/JsonDocument/JSONDocument.cpp:142-252 | after an insert or a replace the new value is found |
| `PathEdit.FindAfterDelete` | artdaq-database/JsonDocument/JSONDocument.cpp:255-303 | after a delete nothing is found there exactly when the key occurred once |
| `PathEdit.DeleteUndoesInsert` | artdaq-database/JsonDocument/JSONDocument.cpp:198-303 | deleting what was inserted restores the document and returns the value |
| `PathEdit.ReplaceUndoesReplace` | artdaq-database/JsonDocument/JSONDocument.cpp:142-195 | replacing with the old value, and with no other, restores the document |
| `PathEdit.ReturnedValueRestores` | artdaq-database/JsonDocument/JSONDocument_utils.cpp:197-214 | passing the returned document back restores, except exactly for the path `payload` over an object with one key `payload` |
| `PathEdit.PayloadNotRestored` | artdaq-database/JsonDocument/JSONDocument_utils.cpp:197-214 | that exception at a concrete document |
| `PathEdit.PayloadMeans` | artdaq-database/JsonDocument/JSONDocument_utils.cpp:197-214 | the four things that a document passed as a new child can stand for |
| `PathEdit.OtherBranches` | artdaq-database/JsonDocument/JSONDocument.cpp:142-303 | no edit changes what is found on a path that parts from its own |
| `PathEdit.ReplaceFinds` | artdaq-database/JsonDocument/JSONDocument.cpp:50-195 | replace and delete succeed exactly where find does, and return what it finds |
| `PathEdit.InsertMissing` | artdaq-database/JsonDocument/JSONDocument.cpp:198-252 | insert succeeds exactly when the parent is an object and nothing is found at the path |
| `Multitasker.InvNext` | artdaq-database/ConfigurationDB/Multitasker.cpp:64-224 | every step of a worker or of the owner keeps conservation, wakeups and the owner's protocol |
| `Multitasker.TasksConserved` | artdaq-database/ConfigurationDB/Multitasker.cpp:64-101 | in every reachable state queued, in-flight and finished tasks add up to `_totalTasks` |
| `Multitasker.ResultsComplete` | artdaq-database/ConfigurationDB/Multitasker.cpp:81-149 | when `waitForResults` has returned, `getResults` cannot throw and returns exactly one result for each task added since the last collection, also for tasks that throw |
| `Multitasker.GetResultsRefuses` | artdaq-database/ConfigurationDB/Multitasker.cpp:81-101 | `getResults` throws exactly while a task is queued or in flight |
| `Multitasker.CollectedResults` | artdaq-database/ConfigurationDB/Multitasker.cpp:81-224 | whenever `getResults` succeeds, as many results are failures as added tasks returned a failure or threw, the messages are those returned or thrown or the fixed text for an unknown exception, and all results are successes exactly when all added tasks returned success |
| `Multitasker.StartedInOrder` | artdaq-database/ConfigurationDB/Multitasker.cpp:64-185 | over every run tasks are started in the order in which they were added |
| `Multitasker.NoWakeupLost` | artdaq-database/ConfigurationDB/Multitasker.cpp:64-79 | while a task is queued some worker is awake or the owner still owes its notification, and no worker has exited |
| `Multitasker.DestructorDrains` | artdaq-database/ConfigurationDB/Multitasker.cpp:39-62 | when the joins are over every accepted task has its result |
| `Multitasker.WorkDecreases` | artdaq-database/ConfigurationDB/Multitasker.cpp:167-224 | every step of a worker that is not a spurious wakeup lowers the work left |
| `Multitasker.WorkBounds` | artdaq-database/ConfigurationDB/Multitasker.cpp:167-224 | workers on their own can only take as many steps as there is work |
| `Multitasker.QuiescentMeansDone` | artdaq-database/ConfigurationDB/Multitasker.cpp:125-149 | when no worker can step, a waiting owner finds its condition true and a joining owner can join |
| `Multitasker.MergeResults` | artdaq-database/ConfigurationDB/Multitasker.cpp:103-123 | the merged status is true exactly when every result is, and the text written by the loop, with its last comma overwritten, is the merged text |
| `Multitasker.FailuresCount` | artdaq-database/ConfigurationDB/Multitasker.cpp:103-123 | the error count is the number of results that failed |
| `MergedResults.MergedRead` | artdaq-database/ConfigurationDB/Multitasker.cpp:103-123 | the JSON grammar reads the merged text as the list of all results in order, with total and error count, if and only if there is a result and every message can be delimited by quotes |
| `MergedResults.NothingMerged` | artdaq-database/ConfigurationDB/Multitasker.cpp:103-123 | the merged text of no results cannot be read |
| `Composition.ComputeCompositionDiff` | artdaq-database/ConfigurationDB/configurationdbifc.h:832-860 | the loops over map, lists and set compute the diff |
| `Composition.ToDropMembers` | artdaq-database/ConfigurationDB/configurationdbifc.h:832-860 | unassigned are exactly the old members without the same version in the new list |
| `Composition.ToAddMembers` | artdaq-database/ConfigurationDB/configurationdbifc.h:832-860 | assigned are exactly the new members whose key is not among the unchanged |
| `Composition.DiffExact` | artdaq-database/ConfigurationDB/configurationdbifc.h:832-860 | old members minus unassigned plus assigned are the new members if and only if every new member with an unchanged key has the version that the map keeps for it |
| `Composition.DiffOfDistinct` | artdaq-database/ConfigurationDB/configurationdbifc.h:832-860 | with distinct keys the diff is right, its two lists are disjoint, and the diff of a list with itself is empty |
| `Composition.RepeatedKeyMissed` | artdaq-database/ConfigurationDB/configurationdbifc.h:832-860 | a concrete list with a repeated key of which one version is not assigned |
| `CompositionStore.InterleavingsAgree` | artdaq-database/ConfigurationDB/configurationdbifc.h:545-601 | when members name distinct documents every complete interleaving of reads and writes ends in the same store with the same documents written, however the searches behind the writes end; with the same ends also with the same successes |
| `CompositionStore.InterleaveFits` | artdaq-database/ConfigurationDB/dispatch_filedb.cpp:348-427 | at every point of an interleaving the store is determined by which tasks have finished |
| `CompositionStore.InOrderFits` | artdaq-database/ConfigurationDB/detail_manageconfigs.cpp:142-179 | the same for tasks one after another, which succeed exactly when every document is found and every search behind a write ends well |
| `GlobalConfiguration.StoreGlobalConfiguration` | artdaq-database/ConfigurationDB/configurationdbifc.h:400-499 | refusals, unassignments, validation and assignments, loop by loop, change the database as `Sequential` says |
| `GlobalConfiguration.PerformTask` | artdaq-database/ConfigurationDB/dispatch_filedb.cpp:348-427 | one assignment or unassignment reads, changes and writes back its document, or reports that there is none; when the search behind the write throws it fails with the document written |
| `GlobalConfiguration.UnassignAgrees` | artdaq-database/ConfigurationDB/configurationdbifc.h:545-571 | unassigning in parallel ends as unassigning in sequence, whatever is not found and however the searches end |
| `GlobalConfiguration.ParallelIsSequential` | artdaq-database/ConfigurationDB/configurationdbifc.h:503-610 | when the searches end well and members validate, name distinct documents and are all found, the parallel store ends in the sequential store's state and status, for every interleaving |
| `GlobalConfiguration.VersionsAgree` | artdaq-database/ConfigurationDB/configurationdbifc.h:400-610 | exactly when each version succeeds (they differ in the failed search for the composition and in how the searches behind their own writes end); and the stores are the same if and only if each document that only the parallel version assigns was readonly or deleted before the call |
| `GlobalConfiguration.FailedSearchDisagrees` | artdaq-database/ConfigurationDB/configurationdbifc.h:412-532 | one member and a failed search: different status and different stores |
| `GlobalConfiguration.MissingDocumentDisagrees` | artdaq-database/ConfigurationDB/configurationdbifc.h:479-601 | two members, the first without a document: the same status and different stores |
| `GlobalConfiguration.AssignmentChanges` | artdaq-database/ConfigurationDB/dispatch_filedb.cpp:348-386 | an assignment leaves exactly the readonly and deleted documents as they are |
| `CompositionFields.SequentialMemberships` | artdaq-database/ConfigurationDB/configurationdbifc.h:400-499 | when the sequential store succeeds, every writable document of a member that comes has the composition's name among its configurations and loses none; of a member that goes, and none that comes, it has lost this name and no other; every other document is as it was, and nothing but configurations and log changes |
| `CompositionFields.ParallelMemberships` | artdaq-database/ConfigurationDB/configurationdbifc.h:503-610 | the same when the parallel store has run to its end and succeeds, for every interleaving |
| `CompositionFields.SucceedsExactly` | artdaq-database/ConfigurationDB/configurationdbifc.h:400-610 | what both versions refuse, and that they succeed exactly when every member to be assigned has all its fields, its document is there and its search ends well |
| `CompositionFields.TasksFor` | artdaq-database/ConfigurationDB/configurationdbifc.h:832-860 | a member comes when the last of its configuration and entity in the new list was not in the old one, and goes when it is not the last of them itself |
| `CompositionFields.OneVersionEachMoves` | artdaq-database/ConfigurationDB/configurationdbifc.h:832-860 | without repeated keys these are the new members and the ones left out |
| `StorePool.JointRun` | artdaq-database/ConfigurationDB/configurationdbifc.h:545-601 | when the pool's workers run the store tasks, the pool makes a run of its own and the store an interleaving |
| `StorePool.PoolCompletes` | artdaq-database/ConfigurationDB/Multitasker.cpp:39-149 | when `waitForResults` has returned, or the destructor has joined, every store task has run to its end, with one result each |
| `StorePool.EndIsResult` | artdaq-database/ConfigurationDB/configurationdbifc.h:589-597 | at every moment a task that has ended has ended as the result of its job says |
| `StorePool.ResultsTell` | artdaq-database/ConfigurationDB/configurationdbifc.h:594-601 | all results are successes exactly when every task succeeded, which is when every document was found and every search ended well |
| `StorePool.PoolsComplete` | artdaq-database/ConfigurationDB/configurationdbifc.h:545-601 | two pools one after the other run unassignments and assignments to their ends, as the parallel version is described, also when a member does not validate and the second pool is destroyed |
| `Base64.Encode` | artdaq-database/BasicTypes/base64.cpp:38-80 | the loop over bytes prints the 24-bit groups of RFC 4648 with padding |
| `Base64.Decode` | artdaq-database/BasicTypes/base64.cpp:82-128 | the loop reads up to the first character outside the alphabet and gives the bytes of its groups |
| `Base64.EmitBytes` | artdaq-database/BasicTypes/base64.cpp:109-125 | the 255 that empty slots get from the search never reaches an output byte |
| `Base64.EncodeBits` | artdaq-database/BasicTypes/base64.cpp:65-68 | the masks and shifts cut a 24-bit group into its four six-bit values |
| `Base64.DecodeBits` | artdaq-database/BasicTypes/base64.cpp:118-120 | the masks and shifts give the three bytes of the group |
| `Base64.EncodedLength` | artdaq-database/BasicTypes/base64.cpp:38-80 | the encoded length is four times the number of groups, rounded up |
| `Base64.EncodeDecode` | artdaq-database/BasicTypes/base64.cpp:38-128 | decoding undoes encoding on all byte strings, and encoded texts are canonical |
| `Base64.DecodeEncode` | artdaq-database/BasicTypes/base64.cpp:38-128 | encoding undoes decoding exactly on canonical texts |

## Left out

- Storage: files, directories, expansion of environment variables, tar and bzip2; the MongoDB and UconDB providers and dispatchers, which follow the filesystem one.
- `SearchIndex`, `findDocumentIDs` and the choice of the newest version in `readDocument`: the result of a search is a parameter.
- `write_documents` (bulk import), `createFromData` and `_importUserData`, and the formats of `write_document` other than GUI and database.
- The text between builder and store: a stored document is the record that was written, not its JSON text.
- The update mirror `_updates`, which `postUpdate` rebuilds from the logged array, and the comparison operators of overlays and trees.
- `removeChild` and `matches`, whose array case compares the left array with itself.
- The FHiCL text parser, the comment grammar and the rewriting of include directives: the model starts from the parsed value tree and a comment map. Errors in converting a line number are not modelled.
- Decimal numbers: `JsonGrammar` reads them as exact reals, without infinities, NaN and the limits of a double, and does not print them, since the generator keeps a fixed number of digits.
- JsonGrammarRoundTrip.ReadWriteRead: says nothing of documents with decimals, which are not printed here.
- GuiText.TextRoundTrip: leaves out documents with decimals, and asks for complete escapes, without which annotating can spoil a string (`TrimmedBackslash`).
- JsonGrammarRoundTrip.WriteRead: leaves out documents with decimals, and takes a backslash that starts no escape as one character of the string; whether the parser library also keeps the backslash of the failed escape rule is not modelled. `CompleteWriteRead` does not depend on it.
- `metadata_node_t::child` returns a value here; the original returns a node that refers to a local copy. References into partly built trees are fresh nodes that are hung into the parent when they are complete.
- Multitasker.QuiescentMeansDone: progress needs at least one worker and a scheduler that runs enabled threads; pools of zero workers, `signalStop` and the bodies of tasks are not part of the model.
- Sections that hold the mutex are single steps, so only interleavings between them are modelled.
- A failed `confirm` after an erase is the reply `Aborted`; builds that compile the check away are not modelled.
- Base64.Encode: lengths are unbounded, the original counts in 32 bits.
- XML and Conf conversion, command-line tools, option parsing, tracing, message texts.
