# Verified model of the projet-annuel web front end

This project models the client-side logic of the ESGI "projet annuel" web front end, a React application. There the backend does the real work and the pages keep state and filter lists. The following parts are modelled in Dafny:

- **Pipeline builder** (`Pipeline`). Programs are dragged into a chain, and each program must accept the previous program's output type. An input file is checked against the first program's input type. Submitting sends the file and the base names of the chained programs' files.
- **Program detail card** (`ProgramDetails`):
  - the program's comments, threaded into a forest by their `parent` links;
  - the like/dislike/share/love histograms over the actions users leave on the program and on its comments;
  - the toggle that adds or removes one user's reaction;
  - the comment box, which creates, replies and edits.
- **Chat page** (`Chat`):
  - friends derived from accepted friendships;
  - the groups the user belongs to;
  - direct and group conversations, in timestamp order;
  - the message box and the sidebar search;
  - the group member panel, with adding and removing members;
  - initials.
- **Code editor** (`Editor`): the language-to-extension table, the exported and deployed file names, and the full-screen and dialog flags.
- **"Add friends" panel** (`FriendList`), the **"my programs" page** (`Programmes`) and the **public program list** (`ProgramList`).

Shared pieces:
- `Text`: ASCII `toLowerCase`, `includes`, `split(sep).pop()` and `trim`.
- `Seqs`: `filter`, `find`, `map` and the stable `sort`.
- `Catalog`: the title search that three pages share.
- `Entities`: the REST resources.
- `Wrappers`: `Option` and JavaScript's falsy ids.

How the model is built:
- A page whose handlers update React state is a class. Its fields are the state variables, and each handler is a method with a `modifies` clause.
- Each REST call becomes a parameter. Data that may be missing is an `Option`, and `None` stands for a call that threw. A call that only succeeds or fails is a `bool`.
- A refetch that a handler starts is applied in the same step.
- The pure derivations are functions, with lemmas that relate them to an independent description of what they should compute.

## Model

| member | source | states |
|---|---|---|
| Pipeline.ChainedAppend | src/pages/Pipeline.js:51-55 | Two chains joined are type-correct exactly when both are and the first one's last output type is the second one's first input type; with a single program appended this is the condition under which a drop is accepted. |
| Pipeline.PipelinePage.Drop | src/pages/Pipeline.js:42-60 | Dropping onto an empty chain gives `[program]` and clears both errors. A program whose input type is the last output type is appended, the earlier programs are kept and both errors are cleared. Otherwise the chain is unchanged and the output-mismatch error names the program. The chain stays type-correct. |
| Pipeline.Extension | src/pages/Pipeline.js:66 | `'.' + name.split('.').pop()` starts with one dot and has no other dot. |
| Pipeline.ExtensionOfDotted | src/pages/Pipeline.js:66 | For `stem.ext` with a dot-free `ext`, the extension is `.ext` whatever dots `stem` holds. |
| Pipeline.ExtensionOfUndotted | src/pages/Pipeline.js:66 | A name without a dot yields `'.' + name`. |
| Pipeline.PipelinePage.FileChange | src/pages/Pipeline.js:62-75 | A file is kept and the error cleared exactly when its extension equals the first program's input type. Otherwise the previous file stays and the input-mismatch error names that type. No file changes nothing. A kept file always matches the chain. |
| Pipeline.ProgramNames | src/pages/Pipeline.js:85 | One name per chained program, in chain order. Each name is a `/`-free suffix of the program's file URL. |
| Pipeline.ProgramNameOfPath | src/pages/Pipeline.js:85 | A file stored as `dir/name` is sent as `name`. |
| Pipeline.PipelinePage.Submit | src/pages/Pipeline.js:81-111 | A request goes out exactly when a file is present and the chain is non-empty, carrying the file and the program names. When the pipeline is created, the file URL is stored and the execution error cleared. When the backend rejects with a body, the error becomes that body's `error` field, possibly absent. When there is no response at all, reading it throws inside the handler, so nothing changes. With no file, the select-file error is set; with a file and an empty chain, nothing changes. |
| Pipeline.PipelinePage.SearchChange | src/pages/Pipeline.js:113-120 | Stores the lower-cased term and the programs whose lower-cased title contains it. |
| Pipeline.PipelinePage.Reset | src/pages/Pipeline.js:122-128 | Empties the chain and clears the file, both errors and the result URL. |
| Pipeline.PipelinePage.FetchPrograms | src/pages/Pipeline.js:28-36 | Stores the response unfiltered in both lists; a failed call changes nothing. |
| Catalog.TitleSearch | src/pages/Programmes.js:26-31 | Keeps exactly the programs whose lower-cased title contains the lower-cased term. |
| Catalog.TitleSearchEmptyTerm | src/pages/Programmes.js:27-29 | An empty term keeps every program, in order. |
| Catalog.TitleSearchLoweredTerm | src/pages/Pipeline.js:114-118 | Lower-casing the term before searching changes no result. |
| Text.Includes | src/pages/Pipeline.js:117 | `hay.includes(needle)` holds exactly when `needle` occurs at some index of `hay`. |
| Text.Lower | src/pages/Pipeline.js:114 | Keeps the length. Maps each ASCII capital to the letter 32 code points above it, its lower-case form, and keeps every other character. |
| Text.LastSegmentIsSuffix | src/pages/Pipeline.js:66 | `s.split(sep).pop()` is a suffix of `s`, and the character before it is `sep`. |
| Text.LastSegmentUnique | src/pages/Pipeline.js:85 | Any separator-free suffix preceded by the separator, or equal to the whole string, is that last segment. |
| Text.TrimEmptyIffBlank | src/pages/ChatPage.js:129 | `s.trim()` is empty exactly when every character of `s` is JavaScript whitespace. |
| ProgramDetails.ProgramComments | src/components/ProgramDetails.js:52 | Keeps exactly the comments whose `program` is the shown program. |
| ProgramDetails.BuildCommentsTree | src/components/ProgramDetails.js:242-261 | One node per id, the last comment with an id winning. Every node has a child list. The roots are the ids of the comments with a falsy `parent`, in input order. Each node's children are the ids of the replies to it, in input order. |
| ProgramDetails.IndexComments | src/components/ProgramDetails.js:246-248 | The first pass gives a node for exactly the ids in the list, the last comment with an id winning, each with no children yet. |
| ProgramDetails.AttachComments | src/components/ProgramDetails.js:250-258 | The second pass makes the roots the ids of the non-replies, in order, and each node's children the ids of the replies to it. It creates and drops no node. |
| ProgramDetails.Index | src/components/ProgramDetails.js:246-248 | Has a node for exactly the ids that occur in the list. |
| ProgramDetails.IndexHoldsLast | src/components/ProgramDetails.js:247 | The node of an id holds the last comment with that id. |
| ProgramDetails.RootsAreNonReplies | src/components/ProgramDetails.js:255-257 | An id is a root exactly when some comment with a falsy `parent` has it. |
| ProgramDetails.ChildrenAreReplies | src/components/ProgramDetails.js:251-254 | An id is a child of `k` exactly when some reply to `k` has it. |
| ProgramDetails.OrphanIsDropped | src/components/ProgramDetails.js:252 | With unique ids, a reply whose parent is not in the list is neither a root nor a child of any node. |
| ProgramDetails.ForestExtends | src/components/ProgramDetails.js:250-258 | Comments appended to the list add their roots and children after the existing ones, so threads keep input order. |
| ProgramDetails.Add | src/components/ProgramDetails.js:98 | `tally[type]++` raises exactly the counter of a recognised type by one; an unrecognised type changes none of the four. |
| ProgramDetails.BucketOf | src/components/ProgramDetails.js:85-86 | An action counts for its program, keyed by that `program_id`, when `program_id` is truthy. Otherwise it counts for its `comment_id`. |
| Entities.ReactionOf | src/components/ProgramDetails.js:87 | An action's `type` string reads as one of the four reactions exactly when it is that reaction's name. Any other string is kept as an unrecognised name, which the `Kind` type of `Action.kind` excludes from being one of the four. |
| ProgramDetails.OccurrencesAbsent | src/components/ProgramDetails.js:209-222 | No action falls in a bucket that no action maps to. |
| ProgramDetails.ProgramTalliesStep | src/components/ProgramDetails.js:89-98 | Adding one action keeps the program histogram exact. It starts a zeroed bucket for a program not seen before and bumps only that action's program and type. A comment action leaves the program histogram as it was. |
| ProgramDetails.CommentTalliesStep | src/components/ProgramDetails.js:99-108 | The same for the comment histogram. |
| ProgramDetails.UpdateActionCounts | src/components/ProgramDetails.js:80-114 | The program and comment histograms have one entry per program or comment some action targets. Each counter is the number of actions with that target and type. |
| ProgramDetails.CountActionsCorrect | src/components/ProgramDetails.js:209-222 | Against histograms built from a list, `countActions` answers the number of matching actions on the program or comment. It answers 0 for an unknown entity kind, a target with no entry, or an unrecognised type. |
| ProgramDetails.ProgramTakesPrecedence | src/components/ProgramDetails.js:85 | An action with a truthy `program_id` never counts for a comment. |
| ProgramDetails.ToggleOffRemoves | src/components/ProgramDetails.js:181-185 | When this user's action of that type on that entity exists, the local list becomes the filter of the old one by `id !== found.id`. Every action with that id is gone, and all others are kept in their order. |
| ProgramDetails.ToggleTwice | src/components/ProgramDetails.js:181-201 | With no matching action, toggling appends the created action. Toggling again removes it and restores the original list. |
| ProgramDetails.ActionRequestFor | src/components/ProgramDetails.js:181-199 | Sends a deletion exactly when a matching action exists, naming the first matching action: the one `find` returns and the local toggle removes. Otherwise it creates the type for the user, with `program_id` set only for a program and `comment_id` only for a comment. |
| ProgramDetails.DeletionMatchesToggle | src/components/ProgramDetails.js:181-185 | When the request is a deletion, the local list becomes the old one without the very id the request deletes. |
| ProgramDetails.CommentRequestFor | src/components/ProgramDetails.js:116-127 | While an edit is in progress, sends an update of that comment and creates nothing. Otherwise creates a comment on the program whose `parent` is the replied-to comment's id, or none. |
| ProgramDetails.ProgramDetailsView.FetchComments | src/components/ProgramDetails.js:49-58 | Replaces the forest with that of the program's comments; a failed call changes nothing. |
| ProgramDetails.ProgramDetailsView.FetchActions | src/components/ProgramDetails.js:69-78 | Stores the list and rebuilds both histograms from it, so they stay exact. |
| ProgramDetails.ProgramDetailsView.AddComment | src/components/ProgramDetails.js:116-134 | Sends the dispatched request. On success it empties the box and ends the edit after an update, or the reply after a creation. A successful refetch makes the whole forest, nodes, roots and children, that of the program's comments; a failed one keeps it. On failure nothing changes. |
| ProgramDetails.ProgramDetailsView.Reply | src/components/ProgramDetails.js:136-150 | Once the author is known, remembers the comment and prefills the box with `<replied_to> @First Last: `. |
| ProgramDetails.ProgramDetailsView.EditComment | src/components/ProgramDetails.js:152-155 | The box takes the comment's text, and the edit targets its id. |
| ProgramDetails.ProgramDetailsView.DeleteComment | src/components/ProgramDetails.js:170-177 | After a successful deletion and refetch, the whole forest is that of the program's comments. Otherwise it is unchanged. |
| ProgramDetails.ProgramDetailsView.HandleAction | src/components/ProgramDetails.js:179-207 | Sends the toggle request and applies the local toggle. It then refetches the actions, whose histograms stay exact. |
| ProgramDetails.ProgramDetailsView.ToggleMenu | src/components/ProgramDetails.js:300 | Flips the menu. |
| Chat.FriendIds | src/pages/ChatPage.js:66-73 | An id is listed exactly when an accepted friendship links it to the user on the other side. |
| Chat.FriendIdsIgnoresOthers | src/pages/ChatPage.js:72 | A friendship the user is not a side of adds nothing. |
| Chat.Friends | src/pages/ChatPage.js:75 | Exactly the users whose id is a friend id, in user order. |
| Chat.UserGroups | src/pages/ChatPage.js:86 | Exactly the groups whose members include the user. |
| Chat.DirectMessagesCorrect | src/pages/ChatPage.js:107-111 | The conversation is sorted by timestamp and holds exactly the messages between the two users in either direction. Messages with equal timestamps keep server order. |
| Chat.GroupMessagesCorrect | src/pages/ChatPage.js:121-122 | The group conversation is sorted by timestamp and holds exactly the group's messages. Messages with equal timestamps keep server order. |
| Chat.OutgoingMessage | src/pages/ChatPage.js:128-135 | Nothing is sent exactly when the text is all whitespace. Otherwise the untrimmed text is sent from the user, with `receiver` set exactly when a friend is selected and `group_id` exactly when a group is selected. |
| Chat.UpdatePayload | src/pages/ChatPage.js:152-156 | The message with that id, with only its content replaced. When no message has the id, the content alone. |
| Chat.SearchFriends | src/pages/ChatPage.js:202-215 | A blank term shows every friend. Otherwise exactly the friends whose non-empty first name, last name or username contains the term, ignoring case. |
| Chat.SearchGroups | src/pages/ChatPage.js:210-216 | A blank term shows every group. Otherwise exactly the groups whose name contains the term, ignoring case. |
| Chat.FindUser | src/pages/ChatPage.js:262 | A found user has the id; nothing is found exactly when no user has it. |
| Chat.ShownMembers | src/pages/ChatPage.js:260-263 | Only known users other than the viewer, from the member ids, whose first name contains the member search, and every such member. |
| Chat.FilteredMembers | src/pages/ChatPage.js:260-263 | No selected group shows no members. Every shown member is in the selected group and is not the viewer. |
| Chat.NonMembers | src/pages/ChatPage.js:265 | Exactly the users outside the selected group; every user when none is selected. |
| Chat.WithoutMember | src/pages/ChatPage.js:243-244 | The id is gone, every other member's presence is unchanged, and the group's id and name are kept. |
| Chat.RemoveUndoesAdd | src/pages/ChatPage.js:232-248 | Adding appends the id; removing it afterwards equals removing it alone. |
| Chat.RemoveAbsent | src/pages/ChatPage.js:243 | Removing a non-member changes nothing. |
| Chat.Initials | src/pages/ChatPage.js:224-226 | Exactly the first letter of the first name, when present and non-empty, followed by that of the last name under the same condition. Its length is the number of such names. |
| Chat.ChatView.FetchFriends | src/pages/ChatPage.js:58-81 | Both lists become the derived friends; if either call fails, nothing changes. |
| Chat.ChatView.FetchGroups | src/pages/ChatPage.js:83-92 | Both lists become the user's groups; a failed call changes nothing. |
| Chat.ChatView.FetchUsers | src/pages/ChatPage.js:94-101 | Stores the users; a failed call changes nothing. |
| Chat.ChatView.ShowConversation | src/pages/ChatPage.js:37-43 | Loads the selected friend's direct messages, or else the selected group's messages. Without a response or a selection, the shown messages stay. |
| Chat.ChatView.SelectFriend | src/pages/ChatPage.js:188-191 | Selects the friend, clears the group and loads the conversation; at most one is selected. |
| Chat.ChatView.SelectGroup | src/pages/ChatPage.js:193-196 | Selects the group, clears the friend and loads the conversation; at most one is selected. |
| Chat.ChatView.SendMessage | src/pages/ChatPage.js:128-148 | Sends the outgoing message. On success it empties the box and reloads the conversation of the current selection, keeping the shown messages when the reload fails. When nothing is sent, or the send fails, nothing changes. |
| Chat.ChatView.EditMessage | src/pages/ChatPage.js:183-186 | Remembers the message, and the box takes its content. |
| Chat.ChatView.UpdateMessage | src/pages/ChatPage.js:150-168 | Sends the payload. On success it ends the edit, empties the box and reloads the conversation of the current selection. On failure nothing changes. |
| Chat.ChatView.DeleteMessage | src/pages/ChatPage.js:170-181 | On success it reloads the conversation of the current selection. On failure, or when the reload fails, the messages stay. |
| Chat.ChatView.SearchChange | src/pages/ChatPage.js:198-218 | Stores the term and both searched lists. |
| Chat.ChatView.ToggleMembers | src/pages/ChatPage.js:228-230 | Flips the member panel. |
| Chat.ChatView.AddUserToGroup | src/pages/ChatPage.js:232-239 | With a selected group, sends it with the id appended. On success it hides the panel; a successful reload sets both group lists to the user's groups. Without a group, on failure, or when the reload fails, both lists stay. The selected group keeps its old record. |
| Chat.ChatView.RemoveUserFromGroup | src/pages/ChatPage.js:241-248 | The same, with every occurrence of the id removed. |
| Chat.ChatView.ToggleMessageMenu | src/pages/ChatPage.js:267-269 | The message's menu is open exactly when it was not, and no other menu is open. |
| Editor.ExportExtension | src/pages/MyEditor.js:35-47 | javascript→js, python→py, java→java, anything else→txt. |
| Editor.ExtensionsAgree | src/pages/MyEditor.js:66-78 | The deploy switch gives the same extension as the export switch for every language, and it has no dot. |
| Editor.FileNamesCarryExtension | src/pages/MyEditor.js:49-81 | `name.ext` and `program.ext` both carry `.ext` as the extension the pipeline page reads. |
| Editor.EditorView.LanguageChange | src/pages/MyEditor.js:26-29 | Sets the language and resets the code to `// Place your code here`. |
| Editor.EditorView.Export | src/pages/MyEditor.js:31-51 | Saves nothing exactly when the prompt is cancelled or empty. Otherwise it saves the code as `name.ext`. |
| Editor.EditorView.FullScreenToggle | src/pages/MyEditor.js:53-55 | Flips full screen, so two toggles restore it. |
| Editor.EditorView.Deploy | src/pages/MyEditor.js:57-59 | Opens the dialog. |
| Editor.EditorView.CancelModal | src/pages/MyEditor.js:205 | Closes the dialog. |
| Editor.EditorView.Confirm | src/pages/MyEditor.js:61-90 | Closes the dialog and uploads `program.ext` with the title and description. The result is the backend's answer, or exactly `Error deploying program.` on failure. |
| Editor.EditorView.FileSelect | src/pages/MyEditor.js:96-106 | A picked file's name is shown and its text becomes the code; no file changes nothing. |
| FriendList.OtherUsers | src/components/ListeFriend.js:22 | Exactly the users other than the viewer, none of them the viewer. |
| FriendList.OtherUsersKeepsOrder | src/components/ListeFriend.js:22 | The filter distributes over concatenation, so server order is kept. |
| FriendList.SentTo | src/components/ListeFriend.js:34 | An id is listed exactly when some request with status exactly `sent` went to it. |
| FriendList.ButtonFor | src/components/ListeFriend.js:76-84 | The disabled "sent" button shows exactly for ids in the sent list. |
| FriendList.FriendListView.FetchUsers | src/components/ListeFriend.js:19-29 | Loading ends either way. The error is set only on failure. The list never contains the viewer. |
| FriendList.FriendListView.FetchRequests | src/components/ListeFriend.js:31-38 | Stores the sent list; a failed call changes nothing. |
| FriendList.FriendListView.AddFriend | src/components/ListeFriend.js:40-47 | Success appends the id, turning that row's button to "sent". Failure changes nothing. No other row changes. |
| Programmes.ShareRequest | src/pages/Programmes.js:47-56 | Nothing is sent exactly when no program has the id. Otherwise it sends that program's title and description with `isVisible` negated. |
| Programmes.ShareTwiceRestores | src/pages/Programmes.js:51-56 | Once a share is applied, sharing again asks for the original visibility. |
| Programmes.ProgrammesView.FetchPrograms | src/pages/Programmes.js:14-24 | Both lists become the unfiltered response; a failed call changes nothing. |
| Programmes.ProgrammesView.Search | src/pages/Programmes.js:26-31 | Shows the title search for the term; with the empty term, every program. |
| Programmes.ProgrammesView.Share | src/pages/Programmes.js:47-62 | Sends the share request and refetches when it succeeds. |
| Programmes.ProgrammesView.Delete | src/pages/Programmes.js:38-45 | Refetches only on success. |
| Programmes.ProgramMenu.Toggle | src/pages/Programmes.js:103 | The ellipsis flips the menu. |
| Programmes.ProgramMenu.Choose | src/pages/Programmes.js:106-131 | Each item calls its own handler with the card's program id and then closes the menu. |
| ProgramList.VisiblePrograms | src/components/ListeProgram.js:17 | Exactly the programs with `isVisible` set. |
| ProgramList.FetchPrograms | src/components/ListeProgram.js:14-23 | Both lists become the visible programs; a failed call changes nothing. |
| ProgramList.HandleSearch | src/components/ListeProgram.js:25-30 | Exactly the listed programs whose title contains the term, ignoring case. |
| ProgramList.TransitionsShowOnlyVisible | src/components/ListeProgram.js:17-30 | Fetching and searching never show an invisible program. |
| ProgramList.SearchAfterFetch | src/components/ListeProgram.js:17-29 | A search after a fetch equals one filter of the response by visibility and title. |
| Seqs.SortByStable | src/pages/ChatPage.js:111 | The sort keeps the input order of elements with equal keys, as `Array.prototype.sort` has done since ECMAScript 2019. |
| Seqs.FilterAppend | src/pages/ChatPage.js:75 | `filter` distributes over concatenation, so kept elements stay in order. |
| Seqs.Find | src/pages/ChatPage.js:152 | `find` returns the first matching element, and nothing exactly when no element matches. |

## Left out

- The REST wrappers under `src/services` and the axios token interceptor. Each call becomes a parameter: data or `None` when it throws, or a success flag.
- `src/services/api.user.js` is not part of this model. `getAllUsers` and `getUserInformation` are parameters.
- `listFriendRequests` is imported by `src/pages/ChatPage.js:4` and `src/components/ListeFriend.js:3` but not exported by `src/services/api.friendship.js`. Those fetches therefore always fail. The model still takes their response as a parameter.
- `sendFriendRequest` is called with one argument but takes two. The call is opaque, so only its success flag is modelled.
- Async ordering. Refetches started by a handler are not awaited in the source. The model applies the refetch's result within the same step, and interleavings are not modelled.
- Sign-in, tokens, routing, i18n strings, icons and pure presentation components. Translated messages are kept as their key (`OutputMismatch`, `SelectFile`) or as a parameter (`repliedTo`).
- The `fileIcons` lookup at `src/pages/Pipeline.js:194` is presentation only. It uses an undotted key while the table's keys are dotted, so it always falls back.
- `handleDownload`, `handleHomeClick` and the drag-and-drop JSON serialisation in `src/pages/Pipeline.js`: browser navigation and DOM. A dropped program arrives as a value.
- `fetchAuthor`, `handleDeleteProgram` and `handleUpdateProgram` in `src/components/ProgramDetails.js`: single REST calls with no effect on the modelled state.
- The click-outside listeners that close menus (`src/components/ProgramDetails.js:36-47`, `src/pages/ChatPage.js:45-56`), `confirmRemoveUser` (`window.confirm`), `getUserById` and the plain `onChange` setters of text inputs. These are DOM events and field assignments.
- `FileReader` and `Blob`. A picked file arrives already read as text, and a saved file is a name and its content.
- `Date` parsing: timestamps are integers.
- `toLowerCase` is modelled for ASCII letters only; Unicode case mapping is not.
- Pipeline.PipelinePage.FileChange: requires a non-empty chain when a file is picked. The file input is only rendered then (`src/pages/Pipeline.js:226`), and with an empty chain the source would throw reading `selectedPrograms[0]`.
- ProgramDetails.UpdateActionCounts: an action with neither id is counted under a single absent `commentId` key. JavaScript stringifies keys, so it would keep `"null"` and `"undefined"` apart.
- ProgramDetails.Add: an unrecognised action type is dropped. The source stores a `NaN` counter under the type's name, which `countActions` then reads as 0.
- Programmes.ProgrammesView.Search: `searchTerm` has no setter on the page, and the search input of `src/components/ListeProgram.js` is commented out. Both searches are modelled over whatever term the state holds.
