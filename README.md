# NodeFlow graph session and project store, in Dafny

NodeFlow is a desktop editor for work-item graphs. Each node is a task with:

- a title, an assignee, start and end dates;
- a workflow type, which sets its colour;
- a position on a canvas.

Links join two nodes. A project is saved as a `.nf` file, which is a zip archive of a working directory. The directory holds `project.db`, an SQLite database with the tables INFO_NODES, INFO_LINKS, INFO_PROPERTIES and INFO_TYPES, and `metadata.json`, which holds the project name and dates.

This project models four things and proves properties of the model:

- the store, `DBManager`;
- the main window's view model, `MainWindowViewModel`;
- the node entity, `NodeModel`;
- the link view model, `LinkViewModel`.

Modules:

- `Basics`: `Option`, `Outcome` (an operation that may throw) and `Result`. Timestamps as tick counts, with the loss of sub-second precision a stored date suffers. The sequence operations the collections use: `Collection.Remove` and filtering.
- `Entities`: colours, process types, the metadata record, `LinkModel`, `PropertyItem` and the `NodeModel` class. Each setter of `NodeModel` stores and announces a value only when it differs, with two exceptions: `ProcessType` is an auto-property that stores without comparing and announces nothing, and `CustomProperties` always stores and announces. The `ID_TYPE` setter also resets the colour and the process type. The ghost field `raised` logs the change notifications.
- `Tables`: the database as a value. It holds the four tables in rowid order and their AUTOINCREMENT counters. It defines every single-table statement the store runs and the whole save transaction. The invariant `Consistent` holds that every id lies under its table's counter, and every operation keeps it.
- `ViewModels`: the node box `NodeViewModel` and the class `LinkViewModel`. A link follows its two endpoint boxes, subscribes to their change events (a multiset of listeners), and writes their ids into its `LinkModel`.
- `Paths`: `Path.GetFileNameWithoutExtension` under Windows separators.
- `Store`: the class `DBManager`. It holds the working directory, the database in it, the metadata, the file path, and a map from paths to files standing for the disk.
- `Session`: the class `MainWindowViewModel`. It holds the node and link collections, the pending link start, the single selection, the dirty flag, the window title and the commands.
- `RoundTrip`: what a save followed by a load does to a graph.

Behaviours the model keeps as the code has them:

- A save writes nodes to a freshly cleared INFO_NODES, which renumbers them 1..n in collection order. Each link's endpoint ids are written exactly as the link holds them. So a graph whose node ids are not already 1..n in order comes back with links moved or dropped. `RenumberingBreaksLink` gives a two-node example.
- PATH is written by a save but never read back, and `AddNode` does not write it.
- The schema declares `ON DELETE CASCADE`, but the connection never enables foreign keys. Deleting a node row leaves its link rows behind.
- `NewProject` clears the node boxes but not the links.
- The link filter of `RemoveNode` and `DeleteLinksForSelectedNode` dereferences link endpoints. It throws on a link with a missing endpoint: the start is always read, and the end is read when the start is another node.
- A store without a database throws in every insert, update, delete and save. Each command stops at that point, after whatever it already changed. The three readers instead return empty lists when the database file is absent.
- `LoadProject` keeps the selection and the pending link start, even though their boxes are no longer in the collection.
- `LoadProject` does not reload the property list and leaves `IsNodeSelected` as it was. The next save writes the properties from before the load.

## Model

| member | source | states |
|---|---|---|
| Basics.ToWholeSecond | Client/Models/DBManager.cs:171-172 | a date written as "yyyy-MM-dd HH:mm:ss" comes back as a whole second no later than it, and less than one second earlier |
| Basics.ToWholeSecondIdempotent | Client/Models/DBManager.cs:171-172 | writing a date that was already stored loses nothing more |
| Basics.RemoveFirst | Client/ViewModels/MainWindowViewModel.cs:540 | `Collection.Remove` drops exactly the first occurrence of the element, keeping the rest in order, and changes nothing when it is absent |
| Entities.LowByte | Client/ViewModels/MainWindowViewModel.cs:381-385 | the unchecked `(byte)` cast keeps an int modulo 256 and leaves 0..255 unchanged |
| Entities.TypeColor | Client/Models/NodeModel.cs:247 | a process type paints an opaque colour whose channels are its RGB values when these fit a byte |
| Entities.ColorAndType | Client/Models/NodeModel.cs:242-255 | with a type: that type and its colour; without one: gray and a record named as unknown |
| Entities.NodeModel.constructor | Client/Models/NodeModel.cs:236-239 | a new node has id 0, no type, the default colour, an empty property collection and one notification |
| Entities.NodeModel.SetIdNode | Client/Models/NodeModel.cs:40-51 | only `ID_NODE` changes, and it is announced only when the value differs |
| Entities.NodeModel.SetNodeTitle | Client/Models/NodeModel.cs:55-66 | only the title changes, announced only on a difference |
| Entities.NodeModel.SetDateStart | Client/Models/NodeModel.cs:70-81 | only the start date changes, announced only on a difference |
| Entities.NodeModel.SetDateEnd | Client/Models/NodeModel.cs:85-96 | only the end date changes, announced only on a difference |
| Entities.NodeModel.SetAssignee | Client/Models/NodeModel.cs:100-111 | only the assignee changes, announced only on a difference |
| Entities.NodeModel.SetIdType | Client/Models/NodeModel.cs:115-129 | an unchanged type does nothing; a new type is stored and announced, then the colour becomes gray and the process type the unknown record |
| Entities.NodeModel.SetProcessType | Client/Models/NodeModel.cs:134 | the auto-property stores its value without comparing and announces nothing |
| Entities.NodeModel.SetNodeColor | Client/Models/NodeModel.cs:138-149 | only the colour changes, announced only on a difference |
| Entities.NodeModel.SetXPosition | Client/Models/NodeModel.cs:154-165 | only X changes, announced only on a difference |
| Entities.NodeModel.SetYPosition | Client/Models/NodeModel.cs:168-179 | only Y changes, announced only on a difference |
| Entities.NodeModel.SetWidth | Client/Models/NodeModel.cs:182-193 | only the width changes, announced only on a difference |
| Entities.NodeModel.SetHeight | Client/Models/NodeModel.cs:196-207 | only the height changes, announced only on a difference |
| Entities.NodeModel.SetPathCustom | Client/Models/NodeModel.cs:209-220 | only PATH changes, announced only on a difference |
| Entities.NodeModel.SetCustomProperties | Client/Models/NodeModel.cs:224-232 | the collection is always stored and always announced |
| Entities.NodeModel.UpdateNodeColorAndType | Client/Models/NodeModel.cs:242-255 | only the colour and the process type change, to `ColorAndType` of the argument; the colour is announced only when it differs |
| Tables.DeleteAllData | Client/Models/DBManager.cs:619-638 | all four tables are empty and all four counters are 0 |
| Tables.StoredDate | Client/Models/DBManager.cs:171-172 | a null date stays null; any other date comes back cut to its whole second |
| Tables.InsertNodeFresh | Client/Models/DBManager.cs:271-296 | the inserted node's id is above every existing id; earlier rows and the other tables are unchanged; the database stays consistent |
| Tables.UpdateNodeRows | Client/Models/DBManager.cs:301-330 | rows with the id take the node's columns as stored but keep PATH; every other row and every id stays as it was |
| Tables.UpdateUnknownNode | Client/Models/DBManager.cs:301-330 | an update naming an id that no row has changes nothing |
| Tables.DeleteNodeRowsExact | Client/Models/DBManager.cs:335-348 | a row survives the node delete exactly when it was there and has another id |
| Tables.InsertLinkConsistent | Client/Models/DBManager.cs:353-370 | a link insert appends one row, keeps the earlier rows and the nodes, and keeps the database consistent |
| Tables.DeleteLinkRowsExact | Client/Models/DBManager.cs:375-409 | a link row survives exactly when it neither starts nor ends at the node |
| Tables.DeleteNodeLeavesDanglingLink | Client/Models/DBManager.cs:335-347 | the declared cascade (lines 78-79) is inert because the connection string (line 44) never turns foreign keys on: after the node delete, a link row that touched the node still does, while no node row has its id |
| Tables.InsertProperty | Client/Models/DBManager.cs:414-431 | the insert fails with a NOT NULL violation exactly when the type is null (column declared at line 83); otherwise the property is appended under id counter+1 |
| Tables.InsertPropertyFresh | Client/Models/DBManager.cs:414-431 | a new property's id is above every existing one; nodes and links are unchanged; the database stays consistent |
| Tables.UpdatePropertyRows | Client/Models/DBManager.cs:436-452 | fails exactly when the type is null and some row has the id; otherwise rows with the id become the item and the others stay |
| Tables.DeletePropertyRowsExact | Client/Models/DBManager.cs:457-470 | a property survives exactly when it was there and has another id |
| Tables.DeletesConsistent | Client/Models/DBManager.cs:61-90 | each delete keeps every id positive, increasing and under its AUTOINCREMENT counter |
| Tables.UpdatesConsistent | Client/Models/DBManager.cs:301-330 | node and property updates keep ids and counters, so the database stays consistent |
| Tables.InsertNodes | Client/Models/DBManager.cs:166-178 | the node loop appends one row per record in order, numbered from the counter on, and touches no other table |
| Tables.InsertLinks | Client/Models/DBManager.cs:187-194 | the link loop appends one row per link in order, with the endpoint ids copied as they are, and touches no other table |
| Tables.InsertProperties | Client/Models/DBManager.cs:201-208 | the property loop fails exactly when some property has no type; otherwise it appends every property in order under consecutive ids |
| Tables.SaveTransactionFails | Client/Models/DBManager.cs:153-223 | the whole transaction fails exactly when some property has no type |
| Tables.SavedNodes | Client/Models/DBManager.cs:158-178 | after a commit the node ids are 1..n in collection order, each row holds its record as stored, and each counter equals its table's size |
| Tables.SavedLinks | Client/Models/DBManager.cs:187-194 | after a commit link j has id j+1 and the endpoint ids its link held, not the new node numbers |
| Tables.SavedProperties | Client/Models/DBManager.cs:201-208 | after a commit property k is the collection's k-th item with id k+1 |
| Tables.SaveTransactionConsistent | Client/Models/DBManager.cs:153-223 | a committed save yields a consistent database |
| Tables.FirstIndexOf | Client/ViewModels/MainWindowViewModel.cs:397-398 | `FirstOrDefault` over ids finds nothing exactly when the id is absent, and otherwise the first position holding it |
| Tables.FirstIndexOfOneTo | Client/ViewModels/MainWindowViewModel.cs:397-398 | over ids 1..n an id is found at position id-1 when it is in range, and not found otherwise |
| ViewModels.NodeViewModel.constructor | Client/ViewModels/NodeViewModel.cs:41-54 | a box wraps the model, unselected and with no subscribers |
| ViewModels.NodeViewModel.SetIsSelected | Client/ViewModels/NodeViewModel.cs:197-208 | the selection flag takes the value |
| ViewModels.NodeViewModel.SetWidth | Client/ViewModels/NodeViewModel.cs:170-181 | only the model's width changes, announced only on a difference |
| ViewModels.NodeViewModel.SetHeight | Client/ViewModels/NodeViewModel.cs:183-194 | only the model's height changes, announced only on a difference |
| ViewModels.LinkViewModel.constructor | Client/ViewModels/LinkViewModel.cs:94-99 | the link joins the two endpoints, subscribes once to each (twice to a node that is both ends), and its data carries both ids when both are set and ids 0 otherwise |
| ViewModels.LinkViewModel.UpdatePoints | Client/ViewModels/LinkViewModel.cs:110-130 | with both endpoints set, the link data takes their ids; otherwise nothing changes |
| ViewModels.LinkViewModel.SetStartNode | Client/ViewModels/LinkViewModel.cs:18-40 | assigning the current start does nothing; otherwise the old start loses one subscription, the new start gains one, and the ids are refreshed when both ends are set |
| ViewModels.LinkViewModel.SetEndNode | Client/ViewModels/LinkViewModel.cs:42-64 | the mirror image of `SetStartNode` for the end |
| ViewModels.LinkViewModel.OnNodePositionChanged | Client/ViewModels/LinkViewModel.cs:101-108 | only an X or Y change refreshes the link's ids; any other property name leaves the link as it was |
| Paths.FileNameIsLastPart | Client/ViewModels/MainWindowViewModel.cs:435 | the file name is the longest suffix of the path that holds no separator |
| Paths.StripExtensionCutsLastDot | Client/ViewModels/MainWindowViewModel.cs:435 | a name without '.' is kept; otherwise the result is the part before its last '.' |
| Paths.FileStemOfProjectFile | Client/ViewModels/MainWindowViewModel.cs:435 | the project name of `dir\name.nf` is `name`, for a name without separators or dots |
| Store.LoadFrom | Client/Models/DBManager.cs:112-142 | a missing file, a non-archive or a malformed metadata.json deletes the working directory and gives fresh metadata; an archive without metadata keeps the previous metadata |
| Store.SavedMetadata | Client/Models/DBManager.cs:226-247 | a save names the project after the file and sets the modification time, keeping description and creation date |
| Store.LoadSaved | Client/Models/DBManager.cs:112-142 | loading a file a save wrote gives back exactly its database and metadata |
| Store.LoadedNodeState | Client/Models/DBManager.cs:494-504 | a loaded node carries every column but PATH; a non-zero type makes it gray with the unknown process type; type 0 leaves it uncoloured |
| Store.LoadedNodeIgnoresPath | Client/Models/DBManager.cs:494-504 | the stored PATH makes no difference to the loaded node |
| Store.InsertNodeLoop | Client/Models/DBManager.cs:166-178 | the loop computes the node inserts of the transaction |
| Store.InsertLinkLoop | Client/Models/DBManager.cs:187-194 | the loop computes the link inserts of the transaction |
| Store.InsertPropertyLoop | Client/Models/DBManager.cs:201-208 | the loop computes the property inserts, stopping at the first property without a type |
| Store.RunTransaction | Client/Models/DBManager.cs:153-223 | the transaction's result is `SaveTransaction` of the inputs, and a commit is consistent |
| Store.NodeFromRow | Client/Models/DBManager.cs:494-504 | the object initializer builds a fresh node in the state `LoadedNodeState` gives |
| Store.DBManager.constructor | Client/Models/DBManager.cs:30-36 | an existing empty working directory, no database, fresh metadata, no path |
| Store.DBManager.CleanupTempFiles | Client/Models/DBManager.cs:250-263 | the working directory and its database are gone |
| Store.DBManager.CreateNewProject | Client/Models/DBManager.cs:103-110 | an empty database in an existing directory, fresh metadata, no path; the disk is unchanged |
| Store.DBManager.LoadProject | Client/Models/DBManager.cs:112-142 | the path is taken even on failure, and the directory, database and metadata are `LoadFrom` of the file at that path |
| Store.DBManager.SaveProject | Client/Models/DBManager.cs:148-248 | without a database it throws; it succeeds exactly when the transaction commits, and then the store holds the new database, path and metadata and the file is written; a failure changes nothing |
| Store.DBManager.Commit | Client/Models/DBManager.cs:226-247 | after the commit the store takes the database, path and named metadata, and the disk maps the path to the archive of them |
| Store.DBManager.AddNode | Client/Models/DBManager.cs:271-296 | throws without a database; otherwise inserts the node without PATH and returns its id, which is above every existing id |
| Store.DBManager.UpdateNode | Client/Models/DBManager.cs:301-330 | throws without a database; otherwise the rows with the node's id take its columns but PATH |
| Store.DBManager.DeleteNode | Client/Models/DBManager.cs:335-348 | throws without a database; otherwise only the node rows with the id go, and its link rows stay |
| Store.DBManager.AddLink | Client/Models/DBManager.cs:353-370 | throws without a database; otherwise the link is inserted under the next id |
| Store.DBManager.DeleteLink | Client/Models/DBManager.cs:375-409 | throws without a database; otherwise every link from or to the node goes |
| Store.DBManager.AddPropertyItem | Client/Models/DBManager.cs:414-431 | throws without a database; refuses a null type and changes nothing; otherwise inserts and returns the new id |
| Store.DBManager.UpdatePropertyItem | Client/Models/DBManager.cs:436-452 | throws without a database; fails and changes nothing when a matching row would get a null type; otherwise updates the matching rows |
| Store.DBManager.DeletePropertyItem | Client/Models/DBManager.cs:457-470 | throws without a database; otherwise only the property with the id goes |
| Store.DBManager.GetAllNodes | Client/Models/DBManager.cs:478-512 | one fresh, distinct node per row in rowid order, each in its `LoadedNodeState`; none without a database |
| Store.DBManager.GetAllLinks | Client/Models/DBManager.cs:517-546 | the link rows in rowid order; none without a database |
| Store.DBManager.GetAllProperties | Client/Models/DBManager.cs:551-580 | the property rows in order; none without a database; an error when some row has a null name |
| Session.WindowTitleFor | Client/ViewModels/MainWindowViewModel.cs:603-622 | the bare application name when no project is open; otherwise the prefix and the name, followed by '*' exactly when there is no file |
| Session.TitleTellsStates | Client/ViewModels/MainWindowViewModel.cs:603-622 | the title tells an open project from none, and a saved project from an unsaved one of the same name |
| Session.ConnectKeepsGraphSimple | Client/ViewModels/MainWindowViewModel.cs:299-318 | adding a link between two different, not yet joined nodes keeps the graph free of self-loops and duplicate links |
| Session.AtMostOneSelected | Client/ViewModels/MainWindowViewModel.cs:108-131 | under the selection invariant, at most one node box shows as selected |
| Session.FindType | Client/ViewModels/MainWindowViewModel.cs:378 | the lookup finds nothing exactly when no type has the id, and otherwise the first type in the list with that id |
| Session.ProcessTypeById | Client/ViewModels/MainWindowViewModel.cs:261-268 | ids 1 to 6 find the six workflow states in order, and no other id finds one |
| Session.LoadedNodeOnCanvas | Client/ViewModels/MainWindowViewModel.cs:369-389 | a loaded node gets the default size; a state id 1..6 paints it that state's colour while its process type stays unknown; type 0 stays uncoloured; other ids stay gray |
| Session.FindNode | Client/ViewModels/MainWindowViewModel.cs:397-398 | the box lookup gives the first box with the id, or null when none has it |
| Session.TouchingLinks | Client/ViewModels/MainWindowViewModel.cs:536 | the filtered links all come from the collection, and every link touching the node is among them |
| Session.TouchingExactly | Client/ViewModels/MainWindowViewModel.cs:580-582 | in a collection without repeats, a link is filtered exactly when it starts or ends at a box with the id |
| Session.RemainingLinks | Client/ViewModels/MainWindowViewModel.cs:536-541 | after the removal loop a link stays exactly when it does not touch the node |
| Session.RemovedBoxUnlinked | Client/ViewModels/MainWindowViewModel.cs:536-541 | no remaining link has the removed box at either end |
| Session.SaveTarget | Client/ViewModels/MainWindowViewModel.cs:417-431 | a project with a file saves to it; one without saves where the dialog says, or nowhere when it is cancelled |
| Session.SavedTitle | Client/ViewModels/MainWindowViewModel.cs:435-440 | after saving to `dir\name.nf` the title is the prefix and `name`, without '*' |
| Session.BuildNodes | Client/ViewModels/MainWindowViewModel.cs:369-389 | one fresh, unselected box per loaded node, in order, each model now in its displayed state |
| Session.BoxFor | Client/ViewModels/MainWindowViewModel.cs:371-386 | the box wraps the model, which takes the default size and the colour of its workflow state |
| Session.ReloadLink | Client/ViewModels/MainWindowViewModel.cs:397-399 | the new link joins the first boxes carrying the stored endpoint ids, or null, with a fresh link data keeping the ids only when both were found |
| Session.ReloadNext | Client/ViewModels/MainWindowViewModel.cs:394-400 | one turn of the link loop appends one fresh link for the next stored link and leaves the links built so far as they were |
| Session.BuildLinks | Client/ViewModels/MainWindowViewModel.cs:392-400 | one fresh link per stored link, in order, each as `ReloadLink` describes |
| Session.NodeFromDraft | Client/ViewModels/MainWindowViewModel.cs:500-514 | the initializer's order leaves the draft's colour but turns a non-zero type's process type into the unknown record |
| Session.MainWindowViewModel.constructor | Client/ViewModels/MainWindowViewModel.cs:247-288 | empty collections, no project open, no selection, a clean state, the bare title, and the store's fresh metadata |
| Session.MainWindowViewModel.UpdateWindowTitle | Client/ViewModels/MainWindowViewModel.cs:603-622 | the title becomes `WindowTitleFor` of the open flag, the path and the project name |
| Session.MainWindowViewModel.SetSelectedNode | Client/ViewModels/MainWindowViewModel.cs:108-131 | the new node shows as selected, the previous one no longer does, and selection stays single |
| Session.MainWindowViewModel.SelectNode | Client/ViewModels/MainWindowViewModel.cs:630-634 | the selection is the node, and `IsNodeSelected` says whether it is non-null |
| Session.MainWindowViewModel.AddLinkBetween | Client/ViewModels/MainWindowViewModel.cs:309 | one fresh link is appended, joining the two nodes and carrying their ids |
| Session.MainWindowViewModel.AppendLink | Client/ViewModels/MainWindowViewModel.cs:309-317 | the link is appended before the store inserts its data; the pending start is cleared only when the store succeeds |
| Session.MainWindowViewModel.StoreLink | Client/ViewModels/MainWindowViewModel.cs:317-324 | the store inserts the link and the pending start is cleared; a store that throws leaves both as they were |
| Session.MainWindowViewModel.ConnectNodes | Client/ViewModels/MainWindowViewModel.cs:291-331 | the first click keeps the start; the same node cancels; an already joined pair only clears the start; otherwise one link is appended and stored; the graph stays free of self-loops and duplicates |
| Session.MainWindowViewModel.NewProject | Client/ViewModels/MainWindowViewModel.cs:334-346 | the store has an empty database; the node boxes are cleared but the links are kept; the project is open, without a file, untitled, and the title ends in '*' |
| Session.MainWindowViewModel.LoadBoxes | Client/ViewModels/MainWindowViewModel.cs:363-389 | one fresh box per stored node row, in its displayed state |
| Session.MainWindowViewModel.LoadLinks | Client/ViewModels/MainWindowViewModel.cs:392-400 | one fresh link per stored link row, resolved against the boxes |
| Session.MainWindowViewModel.BuildGraph | Client/ViewModels/MainWindowViewModel.cs:363-400 | boxes from the node rows, then links from the link rows resolved against the ids of those rows |
| Session.MainWindowViewModel.RebuildGraph | Client/ViewModels/MainWindowViewModel.cs:363-400 | the window's collections become the rebuilt boxes and links, which show the store's node and link tables |
| Session.MainWindowViewModel.LoadProject | Client/ViewModels/MainWindowViewModel.cs:349-411 | a cancelled dialog changes nothing; otherwise the file is loaded, the graph rebuilt from its tables, and the project open and clean; the selection, the pending start, the property list and IsNodeSelected are kept |
| Session.MainWindowViewModel.OpenFile | Client/ViewModels/MainWindowViewModel.cs:358-360 | the path is taken, the store loads the file, and the window shares the store's metadata |
| Session.MainWindowViewModel.Reopen | Client/ViewModels/MainWindowViewModel.cs:363-406 | the graph is rebuilt from the store and the project is open and clean |
| Session.MainWindowViewModel.MarkOpened | Client/ViewModels/MainWindowViewModel.cs:404-406 | the project is open and clean, the title says so, and the boxes and links still show the store's tables |
| Session.MainWindowViewModel.AddNodeAtPosition | Client/ViewModels/MainWindowViewModel.cs:482-525 | a cancelled dialog or a store that throws changes nothing; otherwise one fresh box is appended whose node takes the store's new id, above every existing id, and the project is dirty |
| Session.MainWindowViewModel.RemoveLinks | Client/ViewModels/MainWindowViewModel.cs:538-541 | the collection loses exactly the listed links, in order |
| Session.MainWindowViewModel.DropSelectedBox | Client/ViewModels/MainWindowViewModel.cs:547-549 | the selected box leaves the collection and is deselected |
| Session.MainWindowViewModel.DropRows | Client/ViewModels/MainWindowViewModel.cs:543-546 | the store drops the node's link rows and then its node rows, or throws without a database |
| Session.MainWindowViewModel.DropSelected | Client/ViewModels/MainWindowViewModel.cs:543-550 | the rows go, then the box leaves the collection and the selection, and the project is dirty; a store that throws leaves the boxes as they were |
| Session.MainWindowViewModel.RemoveNode | Client/ViewModels/MainWindowViewModel.cs:528-552 | no selection does nothing; a null endpoint throws before any change; otherwise the touching links go, then the rows, the box and the selection |
| Session.MainWindowViewModel.DeleteLinksForSelectedNode | Client/ViewModels/MainWindowViewModel.cs:573-596 | no selection does nothing; a null endpoint throws; the store deletes the link rows before the collection loses the touching links; a store that throws changes nothing |
| Session.MainWindowViewModel.SaveProject | Client/ViewModels/MainWindowViewModel.cs:415-448 | a cancelled dialog changes nothing; otherwise the path and the name are taken, the save succeeds exactly when the transaction commits, and only then is the project clean with an updated title |
| Session.MainWindowViewModel.SaveTo | Client/ViewModels/MainWindowViewModel.cs:433-447 | the `try` block: the path and name are taken, the store saves, and a commit updates the title and clears the dirty flag |
| Session.MainWindowViewModel.StoreGraph | Client/ViewModels/MainWindowViewModel.cs:438 | the store saves the node boxes, links and properties |
| Session.MainWindowViewModel.NameAfter | Client/ViewModels/MainWindowViewModel.cs:435 | the metadata is named after the file |
| Session.MainWindowViewModel.MarkSaved | Client/ViewModels/MainWindowViewModel.cs:440-442 | the title is brought up to date and the project is clean |
| RoundTrip.SaveThenLoadNodes | Client/Models/DBManager.cs:158-178 | loading a committed save gives back its database; node i loads with id i+1 and its columns, dates cut to the second, and no PATH |
| RoundTrip.ResolveRenumbered | Client/ViewModels/MainWindowViewModel.cs:397-398 | over boxes numbered 1..n, a stored endpoint id finds the box at position id-1, or none when out of range |
| RoundTrip.SavedLinkResolves | Client/Models/DBManager.cs:187-194 | a saved link reloads between the boxes at the positions its old endpoint ids name |
| RoundTrip.SaveThenLoadLinks | Client/ViewModels/MainWindowViewModel.cs:392-400 | every saved link reloads between the boxes at the positions its old endpoint ids name |
| RoundTrip.RenumberingKeepsEndpoint | Client/Models/DBManager.cs:166-194 | an endpoint keeps its position across a save exactly when its id is in 1..n and first names the box at id-1, or is out of range and names no box |
| RoundTrip.RenumberingBreaksLink | Client/Models/DBManager.cs:187-194 | nodes with ids 2 and 3: the link between them reloads from the second box to nothing |
| RoundTrip.SavedLinksFollowEndpoints | Client/ViewModels/LinkViewModel.cs:110-130 | a saved link row carries the ids of the link's endpoint boxes |
| RoundTrip.CanonicalGraphSurvives | Client/Models/DBManager.cs:158-194 | when node ids are already 1..n in order, every link comes back between the same positions |
| RoundTrip.InStepEndpointIds | Client/ViewModels/LinkViewModel.cs:125-129 | over ids 1..n, a link between positions p and q holds ids p+1 and q+1 |

## Left out

- SQLite, the file system and zip archives are abstract values. The database is a record of four tables with counters. The disk is a map from path to file. A file is an archive with an optional database and an optional metadata document, or a corrupt file.
- SQLite connections and their lifetimes are not modelled. Neither is any I/O failure other than a missing, corrupt or malformed file, or a store without a database.
- Dialogs (open, save, add-node) and message boxes are parameters. A cancelled dialog is `None`; no message box appears.
- `Console.WriteLine` logging is not modelled. The count queries the store logs are also not modelled.
- Clocks are a `now` parameter. Every `DateTime.Now` within one operation reads the same value.
- `double` coordinates and sizes are an opaque integer type. Link start and end points are not modelled, and neither is the geometry of `UpdatePoints`. Only the endpoint ids it writes are modelled.
- Canvas size, zoom, offsets and `ResetView` are not modelled.
- Exceptions become an `Outcome` or `Result`. The operation stops at the throw and keeps every change made before it. No outer handler catches them.
- Within the save transaction, a failed insert rolls back to the database as it was before the save. A failed zip or metadata write after the commit is not modelled.
- Metadata is a value, not a shared object. The source sets the name on an object that is the store's own from the window's construction until the first `NewProject`, and again after each load.
  - The model keeps the window's copy and the store's copy separately.
  - `SaveProject` names both after the file.
- `ExitApplication` is not modelled. It is a dialog followed by `CleanupTempFiles`, which is modelled, and application shutdown.
- `ManageNodes`, `AdjustCanvasSize`, `ShowProperties`, `ShowHelp` and `DeleteProperties` are not modelled, because their bodies are empty.
- The `CanExecute` predicates of the commands are not modelled. Every command is modelled as it runs when invoked.
- Change notifications of the view models are not modelled, except `NodeModel`'s log in `raised` and the link subscriptions in `listeners`.
- `NodeViewModel.BasicProperties` and its other pass-through setters are not modelled.
- `INFO_TYPES` is cleared by a save but never written or read. `GetAllTypes` is commented out in the source.
- Integer casts of `GetInt32` are modelled as unbounded integers.
- Store.DBManager.AddNode, UpdateNode, DeleteNode, AddLink, DeleteLink, AddPropertyItem, UpdatePropertyItem, DeletePropertyItem and SaveProject: with the working directory present but no database, `conn.Open()` creates an empty project.db before the statement fails. The model keeps no database and does not record that empty file.
- Store.DBManager.GetAllNodes, GetAllLinks and GetAllProperties: after such a failed write, the source finds the empty file and its SELECT throws. The model still returns empty lists. The window never reads in that state, because `NewProject` and `LoadProject` replace the directory first.
- Store.DBManager.constructor and Session.MainWindowViewModel.constructor: every database on disk is assumed to keep its ids at or below its `sqlite_sequence` counters. SQLite hands out max(counter, largest id) + 1, so with a hand-edited counter the model's counter + 1 can differ from SQLite's id.
- `GetFileNameWithoutExtension` treats ':' as a separator anywhere in the path, as the .NET Framework does. On .NET Core, which the three-argument `ZipFile.ExtractToDirectory` requires, ':' separates only in a drive root, so `C:\f.nf:s` would give `f.nf:s`. A path from the file dialogs never has such a colon.
- A metadata.json whose content is the JSON literal `null` is not modelled. The deserializer returns null without throwing, and the next `UpdateWindowTitle` dereferences it.
- Store.DBManager.GetAllNodes: does not model `GetDateTime` parsing a date that is not well formed.
- Store.DBManager.GetAllLinks: does not model `ParseExact` on a malformed date; `CREATED_AT` is always present.
