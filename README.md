# Verified model of the PSI merge service

This project is a Dafny model of the core of a small data-merge service. Two parties find the records they hold in common with a Diffie–Hellman private-set-intersection (PSI) protocol, and a server and two client-side stores coordinate their merge requests. It models:

- **The PSI engine, in both variants the repository ships.**
  - `ClientA/psi_dh.py` (module `PsiA`) normalises each identifier (strip, lower) and joins them with `"||"`. It reads the whole SHA-256 hex digest as an integer. Round 3 matches by position in the list of published values.
  - `Client/psi_dh.py` (module `PsiB`) joins the raw identifier strings with `"_"` and keeps the last 16 hex digits. Round 3 matches through the inverted h → k dict.
  - The parts both variants write identically are in `PsiCommon`:
    - blinding, `pow(h, key, prime)`;
    - second blinding of a list;
    - set intersection;
    - the dict-order facts of `process_dataset`;
    - extraction of matched rows.
  - The pandas operations used are in `Frames`: building a frame from records, the record extract, the `partner_` renaming and the inner join on `hash_id`.
  - Rows are maps from column label to cell. SHA-256 is a function parameter (`Sha.Hasher`).
- **The server.**
  - The `MERGE_REQUESTS` table (`MergeRequests`): create with its checks, confirm per participant, list by user.
  - The `USER` table it consults (`UserDb`).
  - The online-user registry and the menu text (`Online`).
  - One user's session loop with its options (`Sessions`). This includes the request ID, the SHA-256 of the sorted user pair.
- **The clients.**
  - The `MERGE_RECORDS` CID upsert table (`CidStore`).
  - The `REQUESTS_CID` table (`RequestStore`).
  - The two-queue message router of the new client and its drain loop (`Inbox`).

Python dicts keep insertion order. Module `Dicts` models a dict as a key order plus a map, and keeps them consistent. `h_to_c_map`, `partner_c_to_k`, the online registry and the sqlite tables are all such dicts; a table's row order is its insertion order.

Each class holds the state its source object mutates. Each method's `ensures` ties the new state to a function of the old one, and lemmas state what the source promises about those functions. The session loop `UserSession.run` is specified by `Sessions.SessionRun`, a function over the inputs the client will still send. `Sessions.UserSession.Run` is proved to end in exactly the state, and with exactly the ending, that this function gives.

Two behaviours of the source are modelled as written and proved as such:

- `Sessions.ConfirmAlwaysReportsSuccess`: option 4 sends "Confirm success" even when the ID is unknown or the user is not a participant. `confirmMergeRequest` prints its error instead of raising it.
- `PsiB.VariantsDisagreeOnPadding`: the two PSI variants hash the same record differently, so the two parties must run the same variant. They also join keys differently: `PsiA.MixedKeysJoinAsText` shows that ClientA's `astype(str)` lets an integer key meet its decimal text, which Client's merge does not do.

## Model

| member | source | states |
|---|---|---|
| PsiCommon.BlindedHash | ClientA/psi_dh.py:53-57 | the blinded hash lies in [0, prime) and equals h^key mod prime (identical in Client/psi_dh.py:39-43) |
| PsiCommon.SecondBlind | ClientA/psi_dh.py:132-136 | same length as the input, and element i is the i-th value blinded with the key (identical in Client/psi_dh.py:91-95) |
| PsiCommon.SecondBlindOfPublished | ClientA/psi_dh.py:255-267 | blinding a party's published list with the other key gives, position by position, each hash raised to a·b mod p |
| ModArith.DoubleBlind | ClientA/psi_dh.py:255-267 | blinding with a and then with b equals blinding once with a·b |
| ModArith.BlindingCommutes | ClientA/psi_dh.py:255-267 | blinding with a then b equals blinding with b then a |
| PsiCommon.FindIntersection | ClientA/psi_dh.py:138-146 | x is in the result iff x is in both lists; the result is a subset of each list's elements (identical in Client/psi_dh.py:97-103) |
| PsiCommon.DigestToIntBound | ClientA/psi_dh.py:46-50 | int(hexdigest, 16) is below 2^256 |
| PsiCommon.DigestLow64Bound | Client/psi_dh.py:32-36 | int(hexdigest[-16:], 16) is below 2^64 |
| PsiCommon.Dedup | ClientA/psi_dh.py:92-93 | the keys of a dict filled from a sequence: distinct, exactly the sequence's elements, no more of them than the sequence has |
| PsiCommon.LastIndex | ClientA/psi_dh.py:92-93 | the position a dict write keeps for a key: it holds the key, and no later position does |
| PsiCommon.ProcessedStep | ClientA/psi_dh.py:86-93 | one more row keeps the description of the two dicts true: first-occurrence key order, blinded values, last record per hash |
| PsiCommon.ProcessedKeys | ClientA/psi_dh.py:79-100 | after processing, both dicts are keyed by exactly the row hashes and have at most one entry per row |
| PsiCommon.InvertOver | ClientA/psi_dh.py:157-158 | every entry of the inverted map leads back to an h whose value is that k |
| PsiCommon.InvertOverKeys | ClientA/psi_dh.py:157-158 | the keys of the inverted map are exactly the values of the listed hashes |
| PsiCommon.InvertOverLastWins | Client/psi_dh.py:114-115 | on a k collision the inverted map keeps the last h in dict order whose value is k |
| PsiCommon.InvertIsInverse | Client/psi_dh.py:114-115 | k is in the inverted map iff it is a value of h_to_k, and then it names an h with that value |
| PsiCommon.ExtractedRowsSpec | Client/psi_dh.py:117-129 | at most one row per key; a row is extracted iff some key leads to a hash that has a record, and it is that record's extract |
| PsiCommon.ExtractMatchingRecords | Client/psi_dh.py:105-137 | the loop visits every intersection key once, in some order; the frame is built from exactly the extracts for the keys visited; it has no more rows than there are keys |
| Frames.FromRecords | ClientA/psi_dh.py:182-190 | the frame is well formed and has one row per record holding that record's cells, NaN for the keys it lacks; with no records it has the columns hash_id plus data_columns |
| Frames.ExtractSpec | ClientA/psi_dh.py:172-175 | an extract holds hash_id and exactly the data columns the record has, with the record's cells; hash_id is h unless a data column of that name overwrote it |
| Frames.BuildRecordData | ClientA/psi_dh.py:172-176 | the record_data loop yields the extract of the record |
| Frames.RenameRow | ClientA/psi_dh.py:432-438 | every cell other than hash_id moves to its partner_ name with its value; hash_id keeps its name |
| Frames.RenamePartner | ClientA/psi_dh.py:432-438 | renames every row and the column set the same way, keeping the row count |
| Frames.CombineCells | ClientA/psi_dh.py:441 | a merged row has the key once, every other label that both rows carry twice (label_x with the left cell, label_y with the right one), and every remaining label once; the key keeps the left cell, and each label that only one row carries keeps that row's cell (when no suffixed label clashes) |
| Frames.MatchRowsMembership | ClientA/psi_dh.py:441 | a pair of rows is matched iff it pairs a left row with a right row of equal hash_id (identical in Client/psi_dh.py:272) |
| Frames.InnerJoinMembership | ClientA/psi_dh.py:441 | a row is in the inner join iff it merges a left row with a right row of equal hash_id, with the _x/_y suffixes of pandas |
| Frames.JoinWithPartnerSound | ClientA/psi_dh.py:432-441 | every merged row is the suffixing merge of one of our rows with a partner row of the same hash_id, and has exactly the merged frame's columns |
| Frames.JoinWithPartnerComplete | ClientA/psi_dh.py:432-441 | every pair of rows with equal hash_id yields their suffixing merge as a row |
| Frames.CombineRenamed | ClientA/psi_dh.py:432-441 | a merged row keeps our hash_id; where we already hold partner_c, it holds our cell as partner_c_x and the partner's c as partner_c_y; otherwise, when no suffixed label clashes, the partner's c sits under partner_c and each of our other cells keeps its label |
| Strings.NormalizeIgnoresCaseAndPadding | ClientA/psi_dh.py:36 | fields that differ only in letter case and surrounding whitespace normalise alike |
| Strings.NormalizeIdempotent | ClientA/psi_dh.py:36 | normalising a normalised field changes nothing |
| PsiA.ComputeRecordHash | ClientA/psi_dh.py:23-51 | the column loop computes the record hash: the normalised cells of the present identifier columns, joined with "||", hashed and read as an integer |
| PsiA.RecordHashBound | ClientA/psi_dh.py:46-50 | every record hash is below 2^256 |
| PsiA.RecordHashRespectsIdentity | ClientA/psi_dh.py:30-40 | records with the same identifier columns, whose cells differ only in case and padding, hash alike |
| PsiA.MissingColumnSkipped | ClientA/psi_dh.py:30-33 | an identifier column the record lacks contributes nothing, wherever it sits in the list |
| PsiA.SeparatorCollision | ClientA/psi_dh.py:39-40 | a single cell x + "||" + y and the two cells x and y hash alike, whatever the hash function, since the separator is not escaped |
| PsiA.RowHashes | ClientA/psi_dh.py:79-86 | one hash per row, in row order, each the record hash of its row |
| PsiA.ProcessDataset | ClientA/psi_dh.py:59-102 | the two dicts are keyed by the distinct row hashes in first-occurrence order; h_to_c holds h^key mod prime; h_to_record holds the last row with that hash |
| PsiA.RunStep1 | ClientA/psi_dh.py:192-222 | the processed dicts, and c_values: the blinded hashes in dict order, no more of them than rows |
| PsiA.RunStep2 | ClientA/psi_dh.py:224-297 | k_values is the partner list second-blinded; h_to_k has our keys in our order, all None; partner_c_to_k is keyed by the distinct partner values in order, each blinded with our key |
| PsiA.MatchedPositions | ClientA/psi_dh.py:338-339 | every listed position indexes the k list |
| PsiA.MatchedPositionsSpec | ClientA/psi_dh.py:338-339 | exactly the positions whose k is in the intersection are listed, in increasing order |
| PsiA.PositionalRecordsSpec | ClientA/psi_dh.py:337-347 | success iff every matched hash has a record, giving exactly one extract per matched position in order; otherwise a KeyError naming a matched hash without a record |
| PsiA.RunStep3 | ClientA/psi_dh.py:299-362 | a length mismatch between partner_k and our hash list is a ValueError; otherwise the frame of the extracts of the hashes at the matched positions, or the KeyError of the first missing record |
| PsiA.Step3KeepsExactly | ClientA/psi_dh.py:322-339 | position i is kept iff partner_c_to_k was saved and partner_k[i] is one of its values |
| PsiA.Step3NeverMissesOwnRecord | ClientA/psi_dh.py:340-341 | with the record dict from the same round 1, no KeyError is raised |
| PsiA.HonestRunKeepsCommonHashes | ClientA/psi_dh.py:278-339 | when both parties run rounds 1 and 2, every one of our hashes that the partner also holds is kept at round 3 |
| PsiA.KeyRowAsText | ClientA/psi_dh.py:428-429 | the hash_id cell becomes its text, and every other cell is kept |
| PsiA.KeyAsText | ClientA/psi_dh.py:428-429 | astype(str) keeps the columns, the row count and well-formedness, and converts every row's key |
| PsiA.RunStep4 | ClientA/psi_dh.py:426-446 | the result is the empty frame unless both frames have hash_id and at least one row |
| PsiA.MergedRowFacts | ClientA/psi_dh.py:428-441 | a merged row of the text-keyed frames carries the shared key text, and both rows' other cells as CombineRenamed places them (partner_c, or partner_c_x and partner_c_y) |
| PsiA.MergeSound | ClientA/psi_dh.py:426-441 | every merged row pairs one of our rows with a partner row whose hash_id has the same text; it carries that text, and both rows' other cells with the partner_ names and _x/_y suffixes |
| PsiA.MergeComplete | ClientA/psi_dh.py:426-441 | every pair of rows whose keys read as the same text yields its own merged row, the suffixing merge of the pair with the key as text, and that row's hash_id is the shared text |
| PsiA.KeyOnlyRowsJoin | ClientA/psi_dh.py:426-441 | two one-row frames holding only keys that read as the same text merge into exactly one row, holding that text as hash_id |
| PsiA.MixedKeysJoinAsText | ClientA/psi_dh.py:428-441 | our integer key n and the partner's text str(n) merge into exactly one row holding str(n) |
| PsiB.IdValues | Client/psi_dh.py:28 | succeeds iff the record has every identifier column, giving str of each cell in order; otherwise a KeyError for a missing column |
| PsiB.IdValuesFirstMissing | Client/psi_dh.py:28 | the KeyError names the first identifier column, in order, that the record lacks |
| PsiB.RecordHashBound | Client/psi_dh.py:23-37 | every record hash is below 2^64 |
| PsiB.VariantsDisagreeOnPadding | Client/psi_dh.py:28-29 | a padded upper-case cell and its lower-case form hash alike in the other variant, but give different identifier strings here |
| PsiB.CollectSucceeds | Client/psi_dh.py:55-56 | collecting per-row results succeeds iff every row does, and lists their values in order |
| PsiB.CollectFirstFailure | Client/psi_dh.py:55-56 | a failed collection reports the first failing row |
| PsiB.RowHashesSpec | Client/psi_dh.py:55-56 | hashing the dataset succeeds iff every row has every identifier column, giving each row's hash in order; otherwise the first failing row's error |
| PsiB.ProcessDataset | Client/psi_dh.py:45-61 | a row without an identifier column stops the loop with its KeyError; otherwise the two dicts are as in round 1 of the other variant (first-occurrence order, blinded values, last record wins) |
| PsiB.RunStep1 | Client/psi_dh.py:139-169 | the processed dicts and c_values, the dict's values in order; or the KeyError |
| PsiB.RunStep2 | Client/psi_dh.py:171-206 | k_values is the partner list second-blinded; h_to_k has the keys and order of h_to_c, and holds our own value blinded again with our own key |
| PsiB.OwnKeyIsSquare | Client/psi_dh.py:197-200 | what round 2 keeps for a hash is h^(a·a) mod p |
| PsiB.OwnKeyMissesCommonHash | Client/psi_dh.py:197-200 | with p = 5, keys 2 and 3 and the common hash 2, the partner returns 4 while round 2 keeps 1, and round 3 finds nothing |
| PsiB.Zip | Client/psi_dh.py:197-200 | over distinct keys, the dict has the keys in order, with the i-th value at the i-th key |
| PsiB.IntendedHToK | Client/psi_dh.py:192-200 | the map the comment describes has the keys of h_to_c in order |
| PsiB.IntendedHToKIsDoubleBlind | Client/psi_dh.py:198 | under an honest partner, the intended map holds h^(ab) mod p for every hash |
| PsiB.IntendedRoundFindsCommonHash | Client/psi_dh.py:223-233 | with the map built from partner_k and the intersection taken against our own second blinding of the partner's values, every hash both parties hold has its k in the intersection, and that k leads back through the inverted map to a hash with the same k |
| PsiB.IntendedMapAloneMatchesAll | Client/psi_dh.py:227-230 | with only the map changed, intersecting its values with partner_k keeps the k of every one of our hashes |
| PsiB.RunStep3 | Client/psi_dh.py:208-239 | the loop visits exactly the common k values (ours and the partner's), and the frame holds the extracts they lead to through the inverted h_to_k |
| PsiB.RunStep4 | Client/psi_dh.py:241-281 | an empty frame unless both frames have hash_id |
| PsiB.MergeSound | Client/psi_dh.py:261-272 | every merged row is the suffixing merge of one of our rows with a partner row holding the same hash_id cell, and carries both rows' cells as CombineRenamed places them |
| PsiB.MergeComplete | Client/psi_dh.py:261-272 | every pair of rows with the same hash_id cell yields their suffixing merge as a row |
| UserDb.UserTable.constructor | PSIproject/Server/DataBase.py:10-23 | the table as stored |
| UserDb.UserTable.AddUser | PSIproject/Server/DataBase.py:29-38 | a taken username fails and changes nothing; otherwise the user is inserted with the password; either way the user is then present |
| UserDb.UserTable.SearchUser | PSIproject/Server/DataBase.py:40-52 | true iff the user is in the table |
| UserDb.UserTable.SearchUserPassword | PSIproject/Server/DataBase.py:53-65 | true (with the row) iff both name and password match, else false with no row; a match implies that searchUser holds |
| MergeRequests.Create | Server/MergeRequest.py:30-45 | an unknown user is reported first, then equal names, then a taken ID; success iff none applies, adding the row with both flags false at the end |
| MergeRequests.Confirm | Server/MergeRequest.py:85-125 | an unknown ID and an outsider are errors; success iff the user is a participant, keeping the key order |
| MergeRequests.Involving | Server/MergeRequest.py:66-75 | an ID is listed iff its row involves the user; no repeats |
| MergeRequests.RequestsOfSpec | Server/MergeRequest.py:63-81 | the IDs listed for u are distinct, and they are exactly the IDs of the rows where u is USER1_ID or USER2_ID |
| MergeRequests.InvolvingUpdate | Server/MergeRequest.py:66-75 | changing a row's flags, or adding a row for an unlisted ID, does not change the list |
| MergeRequests.CreateThenListed | Server/MergeRequest.py:30-45 | a created request is appended to both participants' lists and nobody else's list changes |
| MergeRequests.ConfirmSetsOwnFlag | Server/MergeRequest.py:101-120 | confirm sets USER1_CONFIRM when u is USER1_ID, else USER2_CONFIRM; every other row and field is kept |
| MergeRequests.ConfirmIdempotent | Server/MergeRequest.py:101-120 | confirming twice equals confirming once |
| MergeRequests.ConfirmKeepsRequestsOf | Server/MergeRequest.py:101-120 | a confirm changes nobody's request list |
| MergeRequests.OperationsKeepValid | Server/MergeRequest.py:30-45 | create and confirm keep every row between two different registered users |
| MergeRequests.MergeRequestTable.constructor | Server/MergeRequest.py:7-29 | the table as stored, over the given user table |
| MergeRequests.MergeRequestTable.CreateMergeRequest | Server/MergeRequest.py:30-45 | raises the first failing check and changes nothing, or inserts the new unconfirmed row, exactly as Create on the current user table |
| MergeRequests.MergeRequestTable.ConfirmMergeRequest | Server/MergeRequest.py:85-125 | the error is logged, not raised; the table changes exactly as Confirm says, and not at all on an error |
| MergeRequests.MergeRequestTable.CheckAllMergeRequest | Server/MergeRequest.py:63-81 | some list iff u has a request, and then the list is distinct and holds exactly u's requests in table order; otherwise None, with "You dont have a single request" logged |
| Online.InitUIIsMenu | Server/UserInterFace.py:12-24 | the menu is the nine pieces one after the other, the two glued literals for options 2 and 3 forming one piece |
| Online.LoginUsers.constructor | Server/UserInterFace.py:6 | the registry starts empty |
| Online.LoginUsers.Update | Server/UserInterFace.py:26-31 | a login sets the entry, replacing an earlier socket in place; a logout removes it; a logout of an absent user is a KeyError and changes nothing |
| Online.LoginUsers.OnlineUsers | Server/UserSession.py:20-21 | the registry keys in login order, each once |
| Online.LoginThenLogout | Server/UserInterFace.py:28-31 | logging an absent user in and then out restores the registry |
| Online.UpdateKeepsOthers | Server/UserInterFace.py:26-31 | login and logout leave every other user's entry as it was |
| Sessions.SortedPair | Server/UserSession.py:44 | the two names in lexicographic order, whichever order they came in |
| Sessions.RequestId | Server/UserSession.py:44-47 | 64 hex digits, the SHA-256 of lo + "_" + hi |
| Sessions.RequestIdSymmetric | Server/UserSession.py:44-47 | both users derive the same sorted pair and the same ID |
| Sessions.PartnerRequestIsDuplicate | Server/UserSession.py:44-50 | once either user has created the request for a pair, the other's attempt fails with "Requests Exists" |
| Sessions.Option2Spec | Server/UserSession.py:41-54 | option 2 consumes at most one input, leaves the registry alone and only adds messages |
| Sessions.Option3Spec | Server/UserSession.py:55-62 | option 3 consumes no input, changes no table and only adds messages |
| Sessions.Option4Spec | Server/UserSession.py:63-71 | option 4 consumes at most one input, leaves the registry alone and only adds messages |
| Sessions.Option5Spec | Server/UserSession.py:72-80 | option 5 consumes at most one input and only adds a prompt |
| Sessions.Dispatch | Server/UserSession.py:19-40 | no option adds input; the registry is unchanged, except that 'Q' removes the user and ends the session with a logout |
| Sessions.Step | Server/UserSession.py:13-40 | a round that goes on consumes input; the registry changes only by this user's logout; the menu is always sent |
| Sessions.QuitEndsSession | Server/UserSession.py:35-38 | 'Q' removes the user, says "Logging out..." and ends the loop; an absent user makes the pop raise KeyError instead |
| Sessions.ListOnlineContinues | Server/UserSession.py:19-22 | '1' sends the registry keys joined by newlines, and the loop goes on |
| Sessions.InvalidOptionContinues | Server/UserSession.py:39-40 | any other option gets "Invalid option", and the loop goes on |
| Sessions.CreateFailureReported | Server/UserSession.py:49-54 | a failed create is reported as an info message with the error's text; the table is kept, and the loop goes on |
| Sessions.ConfirmAlwaysReportsSuccess | Server/UserSession.py:63-71 | option 4 sends "Confirm success" whatever the confirm did |
| Sessions.SessionOnlyLogsOutItself | Server/UserSession.py:13-40 | a session removes at most its own user from the registry, only when it ends by logging out; it always sends something |
| Sessions.ConfirmKeepsKeyed | Server/MergeRequest.py:101-120 | a confirm keeps every row keyed by its sorted user pair |
| Sessions.Option2KeepsTableInvariants | Server/UserSession.py:41-54 | option 2 keeps every row keyed by its sorted pair and between two different registered users |
| Sessions.Option4KeepsTableInvariants | Server/UserSession.py:63-71 | option 4 keeps both table invariants |
| Sessions.StepKeepsTableInvariants | Server/UserSession.py:13-40 | one round keeps both table invariants |
| Sessions.SessionKeepsTableInvariants | Server/UserSession.py:13-40 | a whole session keeps both table invariants |
| Sessions.Channel.constructor | Server/UserSession.py:9 | the client socket with its pending inputs, nothing sent yet |
| Sessions.Channel.SendAll | Server/UserSession.py:15 | appends the message to what was sent |
| Sessions.Channel.Recv | Server/UserSession.py:16 | the oldest pending input, removed; None when there is none |
| Sessions.UserSession.constructor | Server/UserSession.py:8-11 | the session's client, user, merge table and registry |
| Sessions.UserSession.Option2 | Server/UserSession.py:41-54 | the new state and status are those of Option2Spec |
| Sessions.UserSession.Option3 | Server/UserSession.py:55-62 | the new state is that of Option3Spec |
| Sessions.UserSession.Option4 | Server/UserSession.py:63-71 | the new state and status are those of Option4Spec |
| Sessions.UserSession.Option5 | Server/UserSession.py:72-80 | the new state and status are those of Option5Spec |
| Sessions.UserSession.Round | Server/UserSession.py:14-40 | one loop body changes the state as Step does |
| Sessions.UserSession.Run | Server/UserSession.py:13-40 | the loop ends in the state and with the ending that SessionRun gives |
| CidStore.UpsertMyCid | Client/id_database.py:38-75 | the ID is present afterwards |
| CidStore.UpsertPartnerCid | Client/id_database.py:77-114 | the ID is present afterwards |
| CidStore.AllRows | Client/id_database.py:142-156 | one row per stored request |
| CidStore.RecordMyCidThenGet | Client/id_database.py:58-69 | after record_my_cid the record holds the CID; the partner CID is what it was, NULL on a new row |
| CidStore.RecordPartnerCidThenGet | Client/id_database.py:97-108 | after record_partner_cid the record holds it; my CID is what it was |
| CidStore.UpsertsKeepOthers | Client/id_database.py:26-32 | neither upsert touches another request's record, or adds an ID other than its own |
| CidStore.UpsertsIdempotent | Client/id_database.py:38-114 | recording the same CID twice equals recording it once |
| CidStore.UpsertsCommute | Client/id_database.py:58-63 | the two CIDs are independent on any ID, stored or new: recording them in either order gives the same table |
| CidStore.AllRowsSpec | Client/id_database.py:142-156 | every stored request is listed exactly once, with the CIDs get_merge_record gives |
| CidStore.LocalDBManager.constructor | Client/id_database.py:8-36 | the table as stored |
| CidStore.LocalDBManager.RecordMyCid | Client/id_database.py:38-75 | the table becomes UpsertMyCid of the old one, and True is returned |
| CidStore.LocalDBManager.RecordPartnerCid | Client/id_database.py:77-114 | the table becomes UpsertPartnerCid of the old one, and True is returned |
| CidStore.LocalDBManager.GetMergeRecord | Client/id_database.py:116-140 | the stored (my_cid, partner_cid), or (None, None) for an unknown ID |
| CidStore.LocalDBManager.GetAllMergeRecords | Client/id_database.py:142-156 | one (request_id, my_cid, partner_cid) per stored row, in table order |
| RequestStore.CreateRow | ClientB/Request.py:24-35 | the ID is present afterwards |
| RequestStore.SetCid1 | ClientB/Request.py:37-45 | the key order and key set are unchanged |
| RequestStore.CreateRowSpec | ClientB/Request.py:17-33 | a new ID gets ("", "") at the end; a taken ID changes nothing; other rows are kept |
| RequestStore.CreateRowIdempotent | ClientB/Request.py:24-35 | creating twice equals creating once |
| RequestStore.SetCid1Spec | ClientB/Request.py:37-45 | sets CID1 of the matching row and keeps its CID2; an unknown ID changes nothing; other rows are kept |
| RequestStore.CreateThenSetCid1 | ClientB/Request.py:24-45 | a CID stored for a new request is read back with an empty CID2 |
| RequestStore.RequestDataBase.constructor | ClientB/Request.py:5-9 | the table as stored |
| RequestStore.RequestDataBase.InitDatabase | ClientB/Request.py:10-23 | CREATE TABLE IF NOT EXISTS changes no row |
| RequestStore.RequestDataBase.CreateRequest | ClientB/Request.py:24-35 | the table becomes CreateRow of the old one; "Request already Exists" is printed iff the ID was taken |
| RequestStore.RequestDataBase.InsertCid | ClientB/Request.py:37-45 | the table becomes SetCid1 of the old one |
| Inbox.Signals | NewClient/C_Client.py:32-33 | only signals, and only messages received |
| Inbox.Others | NewClient/C_Client.py:34-35 | only non-signals, and only messages received |
| Inbox.RoutingKeepsEveryMessage | NewClient/C_Client.py:32-35 | the two queues together hold exactly the messages received, as a multiset and in number |
| Inbox.CreateAllSpec | NewClient/C_Client.py:41-47 | after the drain the table holds every earlier row unchanged and every signalled ID; new IDs get empty CIDs; nothing else is added |
| Inbox.Client.constructor | NewClient/C_Client.py:9-16 | two empty queues, and the request table unchanged by its second initialisation |
| Inbox.Client.Route | NewClient/C_Client.py:31-35 | a signal goes to the back of the signal queue, anything else to the back of the message queue |
| Inbox.Client.Receive | NewClient/C_Client.py:25-38 | the signal queue gains exactly the signals received, in order, and the message queue gains the rest |
| Inbox.Client.SignalHandling | NewClient/C_Client.py:41-47 | the signal queue ends empty; each signalled ID is created front to back; the message queue is untouched |
| Inbox.Client.Logic | NewClient/C_Client.py:48-57 | pops and shows the oldest message and sends the reply iff it asks for one; an empty queue is a no-op; the signal queue is untouched |

## Left out

- SHA-256 itself is not modelled: every operation that hashes takes the hash function as a parameter, and `str.encode()` is folded into it.
- Excel and JSON files, the `output_dir` scratch files and `run_psi_protocol`'s resumption are not modelled. Values and frames are passed as parameters, and a frame written by one round is read back unchanged.
- The file check in ClientA's round 3 (`os.path.exists` on `partner_c_to_k.json`) is the `Option` parameter `storedCToK`.
- Frames.CombineCells: when a suffixed label such as `partner_age_x` is already a label of one side, pandas either raises `MergeError` or gives two columns of that label, depending on the side. The model keeps one cell per label, and states where the unsuffixed cells go only when `SuffixesFree` holds.
- Frames.CombineRenamed: likewise, through `CarriesCells`; so do `PsiA.MergedRowFacts`, `PsiA.MergeSound` and `PsiB.MergeSound`.
- Frames.InnerJoinMembership: the overlapping labels are taken from the two rows; pandas takes them from the frames' columns. The two agree for frames whose rows carry every column (`WellFormed`), as every frame read from a file does.
- PsiB.RunStep4: pandas refuses, with a `ValueError`, to merge an integer `hash_id` column with a text one. The model compares the cells and gives no row for such a pair instead.
- PsiB.IntendedRoundFindsCommonHash: the corrected round makes two changes. Round 3 builds the map, because only round 3 receives partner_k (round 2, Client/psi_dh.py:171-206, never has it). Round 3 also intersects the map's values with our own round-2 k_values, the partner's values blinded with our key, instead of partner_k (Client/psi_dh.py:227-230). ClientA/psi_dh.py:322-339 already works this way. `PsiB.IntendedMapAloneMatchesAll` shows that the first change alone would match every record.
- pandas is modelled only as far as the rounds use it: rows are maps from column label to a text, integer or NaN cell. Floating-point cells, dtype inference by `read_excel`, and `DataFrame.iterrows`' Series semantics other than `c in record` are not modelled.
- `str.strip()` and `str.lower()` are modelled for ASCII whitespace and the letters A–Z only, because Unicode case folding is outside Dafny's strings.
- IPFS upload and download, `generate_deterministic_prime` and private-key generation are not modelled: they are external or random. The prime and the keys are parameters.
- Sockets, `json.dumps`/`json.loads` and threads are not modelled. A client connection is a queue of the data strings it will send (`Sessions.Channel`), and a disconnect or undecodable message ends `recv`. Each `threading.Lock` is dropped, and every store is modelled sequentially.
- PsiA.RunStep3: it does not take ClientA's `h_to_k_map` parameter, which round 3 never reads.
- `extract_matching_records_fixed` (ClientA/psi_dh.py:364-402) is not modelled: nothing calls it, and it is `extract_matching_records` without the inversion, which `PsiCommon.ExtractMatchingRecords` covers.
- The `c_to_h_map` that Client's round 2 builds and never uses is left out.
- Python's set iteration order is not modelled. `PsiCommon.ExtractMatchingRecords` takes the intersection keys in some order, and reports that order only as its ghost out-parameter.
- `MergeRequest.isReady` (Server/MergeRequest.py:47-62) is not modelled: it queries a column that does not exist and its branches are empty, so it has no behaviour to state.
- SQLite row order is not modelled. A table's rows come back in insertion order, as they do for these tables, which are never deleted from.
- RequestStore.RequestDataBase.InsertCid: the update is modelled as taking effect. The source never commits it, so it lasts only as long as the connection.
- CidStore.LocalDBManager.RecordMyCid: always returns True, because the `False` path needs a database error, which the model has none of.
- CidStore.LocalDBManager.RecordPartnerCid: always returns True, for the same reason.
- Inbox.Client.Receive: it takes the decoded messages at once. The busy loop on an empty `recv` and the `ConnectionError` that ends it are not modelled.
- Inbox.Client.Logic: `input("Reply:")` is the `reply` parameter, and the message it would send is returned instead of sent.
- `UserSession.option5` reads an ID and does nothing else, and that is all the model does with it.
- `print` output is not modelled. Where the source prints instead of raising, the model returns what is printed as a `logged` value: a caught `confirmMergeRequest` error, a duplicate `createRequest`, the "no requests" of `checkAllMergeRequest`.

## Findings

| source | as written | input that shows it | evidently intended | confidence | as-written member | corrected member |
|---|---|---|---|---|---|---|
| Client/psi_dh.py:197-200 | round 2 sets `h_to_k_map[h] = pow(h_to_c_map[h], own_key, prime)`, that is h^(a·a), so round 3 almost never meets the partner's h^(ab) | prime 5, own key 2, partner key 3, both parties hold hash 2: round 2 keeps 1, the partner returns 4, and round 3 matches nothing | round 3 builds h_to_k_map from partner_k: for our i-th hash it holds partner_k[i], the partner's second blinding of our i-th published value, that is h^(ab) mod p, as the comment on line 198 says. Round 3 then intersects those values with our own round-2 k_values (the partner's values blinded with our key) instead of partner_k, as ClientA/psi_dh.py:322-339 does | high (not executed) | PsiB.OwnKeyMissesCommonHash | PsiB.IntendedRoundFindsCommonHash |
