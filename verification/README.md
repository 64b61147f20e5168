# mydata-testbed support board, in Dafny

A model of the support-board back end of the mydata-testbed web application.
Members write posts, optionally with one attached file. They can read, edit
and delete posts, and download the attachments. Around that sit smaller
pieces: the member entity and its validated value objects (e-mail, phone,
password), customer inquiries, and the e-mail verification token table.

- **Posts.** The `Board` entity is a class whose methods update its fields in
  place (`board.dfy`).
- **Board service.** The service (`board_service.dfy`) holds the post table
  as a map from id to row value. It loads a row into a `Board`, runs the
  entity's methods, and writes the row back.
- **Rollback.** A failed call leaves the table as it was, as the
  surrounding transaction rolls back. Calls already made on the file store
  are not undone.
- **File store.** The store (`file_store.dfy`) is a class holding a map from
  path to bytes and a set of directories. It keeps a ghost log of its save
  and delete calls, so the contracts can speak about call order.
- **Mapping and downloads.** The mapper (`board_mapper.dfy`) builds the
  response records. The controller's download decision and its
  `filename*` encoding are pure functions (`support_pages.dfy`,
  `filename_encoding.dfy`). The encoding is related to RFC 3629 (UTF-8),
  section 3.2 of RFC 5987 and section 4.3 of RFC 6266.
- **Inquiries and tokens.** Inquiries (`inquiry.dfy`,
  `inquiry_service.dfy`) and verification tokens
  (`verification_token.dfy`, `email_service.dfy`) follow the same
  pattern: entity classes, with tables as sequences or maps of values.

The following are parameters instead of calls:
- the clock (whole seconds);
- fresh UUIDs (any string satisfying `Common.IsUuid`; the board service also requires that its stored path is unused);
- the outcome of a file save (`SaveFault`), of a file delete
  (`deleteFails`) and of a mail send (`mailSent`);
- the set of readable paths.

Java `int` arithmetic is modelled with explicit wrap-around (`Common.WrapInt`).
A `null` is `None`.

## Model

| member | source | states |
|---|---|---|
| Common.Utf16Length | src/main/java/com/mydata/mydatatestbed/dto/board/BoardRequestDto.java:13-15 | the length `@Size(max = 200)` measures: UTF-16 code units, between one and two per character, and exactly one per character when none lies outside the Basic Multilingual Plane |
| Common.WrapInt | src/main/java/com/mydata/mydatatestbed/entity/Board.java:52-54 | the result is in Java `int` range, congruent to the input modulo 2^32, and equal to it when the input is already in range |
| ValueObjects.EmailMatchesIsPattern | src/main/java/com/mydata/mydatatestbed/vo/EmailVo.java:25 | the matcher accepts a string exactly when it is a non-empty run of `A-Za-z0-9+_.-`, then `@`, then a non-empty run of `A-Za-z0-9.-` |
| ValueObjects.AcceptedEmailHasOneAt | src/main/java/com/mydata/mydatatestbed/vo/EmailVo.java:25 | an accepted e-mail has exactly one `@`, with non-empty parts on both sides |
| ValueObjects.EmailMatches | src/main/java/com/mydata/mydatatestbed/vo/EmailVo.java:25-41 | the e-mail pattern: a local part of `A-Za-z0-9+_.-`, one `@`, a domain of `A-Za-z0-9.-`, both non-empty (its properties are the two rows above) |
| ValueObjects.NewEmail | src/main/java/com/mydata/mydatatestbed/vo/EmailVo.java:30-44 | null or blank is rejected as "required" before any pattern check; otherwise the address is accepted iff it matches, and it is stored verbatim |
| ValueObjects.StripDashes | src/main/java/com/mydata/mydatatestbed/vo/PhoneVo.java:33 | the result contains no `-` and is no longer than the input |
| ValueObjects.NewPhone | src/main/java/com/mydata/mydatatestbed/vo/PhoneVo.java:30-41 | null or blank gives an empty phone; otherwise the phone is accepted iff it matches the pattern, and an accepted phone is stored as exactly the input without dashes |
| ValueObjects.PhoneMatches | src/main/java/com/mydata/mydatatestbed/vo/PhoneVo.java:23-38 | the phone pattern: `01`, one more digit, an optional dash, 3 or 4 digits, an optional dash, 4 digits (its consequences are the rows below) |
| ValueObjects.StoredPhoneIsDigits | src/main/java/com/mydata/mydatatestbed/vo/PhoneVo.java:23-34 | a stored phone is 10 or 11 ASCII digits beginning with `01` |
| ValueObjects.PhoneNormalisationIdempotent | src/main/java/com/mydata/mydatatestbed/vo/PhoneVo.java:30-34 | feeding a stored phone back in is accepted and stores the same value |
| ValueObjects.NewPassword | src/main/java/com/mydata/mydatatestbed/vo/PasswordVo.java:24-34 | rejected iff null or blank; otherwise stored verbatim |
| ValueObjects.PasswordHasNoLengthRule | src/main/java/com/mydata/mydatatestbed/vo/PasswordVo.java:30-34 | any password with one non-whitespace character is accepted, whatever its length or content |
| Members.RoleOrDefault | src/main/java/com/mydata/mydatatestbed/entity/Member.java:94 | a given role is kept, and a missing role becomes the user role |
| Members.AdminOnlyWhenGiven | src/main/java/com/mydata/mydatatestbed/entity/Member.java:94 | a member is built as an administrator iff the administrator role was given explicitly |
| Members.Member.constructor | src/main/java/com/mydata/mydatatestbed/entity/Member.java:84-97 | every field is as given, the role is the defaulted one, and no login time is set |
| Members.Member.VerifyEmail | src/main/java/com/mydata/mydatatestbed/entity/Member.java:101-103 | sets the e-mail flag and changes nothing else, so a second call changes nothing |
| Members.Member.VerifyPhone | src/main/java/com/mydata/mydatatestbed/entity/Member.java:105-107 | sets the phone flag and changes nothing else |
| Members.Member.UpdateLastLoginAt | src/main/java/com/mydata/mydatatestbed/entity/Member.java:109-111 | records the given time and changes nothing else |
| Members.Member.IsAdmin | src/main/java/com/mydata/mydatatestbed/entity/Member.java:113-115 | an administrator is a member whose role is the administrator role; `AdminOnlyWhenGiven` states when that holds |
| Boards.NextViewCount | src/main/java/com/mydata/mydatatestbed/entity/Board.java:52-54 | `viewCount++` on a Java int: one more, or `Integer.MIN_VALUE` after the maximum |
| Boards.ViewCountAfterAdds | src/main/java/com/mydata/mydatatestbed/entity/Board.java:52-54 | n increments give the start value plus n, wrapped to 32 bits; this is exactly plus n while that stays in range |
| Boards.Viewed | src/main/java/com/mydata/mydatatestbed/entity/Board.java:52-54 | the counter advances and every other field is unchanged |
| Boards.Updated | src/main/java/com/mydata/mydatatestbed/entity/Board.java:56-65 | title and content are always replaced; the path, name and size triple is replaced as a whole iff the new path is non-null, and otherwise kept exactly |
| Boards.Cleared | src/main/java/com/mydata/mydatatestbed/entity/Board.java:67-71 | all three attachment fields are null; member, title, content and counter are unchanged |
| Boards.UpdateMovesTripleTogether | src/main/java/com/mydata/mydatatestbed/entity/Board.java:56-65 | after `update` the triple equals either the old triple or the given one, never a mix |
| Boards.BoardRecord.IsAuthor | src/main/java/com/mydata/mydatatestbed/entity/Board.java:73-75 | a post's author is the member whose id equals the owner's id |
| Boards.AuthorshipIsFixed | src/main/java/com/mydata/mydatatestbed/entity/Board.java:52-75 | counting a view, updating and clearing the attachment never change who the author is |
| Boards.Board.constructor | src/main/java/com/mydata/mydatatestbed/entity/Board.java:40-50 | a new post has counter 0, whatever else is given |
| Boards.Board.IncrementViewCount | src/main/java/com/mydata/mydatatestbed/entity/Board.java:52-54 | the post becomes `Viewed` of its old value |
| Boards.Board.Update | src/main/java/com/mydata/mydatatestbed/entity/Board.java:56-65 | the post becomes `Updated` of its old value; the member is never reassigned |
| Boards.Board.RemoveAttachment | src/main/java/com/mydata/mydatatestbed/entity/Board.java:67-71 | the post becomes `Cleared` of its old value |
| Boards.Board.IsAuthor | src/main/java/com/mydata/mydatatestbed/entity/Board.java:73-75 | the entity's author check holds exactly when its owner's id is the given id, as for its row |
| BoardMapper.ToEntity | src/main/java/com/mydata/mydatatestbed/mapper/BoardMapper.java:14-20 | a fresh post with the form's title and content, counter 0 and no attachment |
| BoardMapper.ToEntityWithFile | src/main/java/com/mydata/mydatatestbed/mapper/BoardMapper.java:22-32 | a fresh post whose title, content, path, name and size are copied verbatim |
| BoardMapper.ToListResponse | src/main/java/com/mydata/mydatatestbed/mapper/BoardMapper.java:34-43 | the list flag holds iff the path is non-null; id, title, author name and counter are copied |
| BoardMapper.ToDetailResponse | src/main/java/com/mydata/mydatatestbed/mapper/BoardMapper.java:45-60 | the detail flag holds iff the path is non-null and non-empty; `authorId` is the owner's id; counter, path and name are copied |
| BoardMapper.AttachmentFlagsDifferOnlyOnEmptyPath | src/main/java/com/mydata/mydatatestbed/mapper/BoardMapper.java:40 | the list flag and the detail flag differ iff the path is the empty string |
| BoardMapper.ToListResponseCorrected | src/main/java/com/mydata/mydatatestbed/mapper/BoardMapper.java:56 | a list item whose flag agrees with the detail page's flag, with every other field as in `ToListResponse` |
| FileStorage.LastIndexOf | src/main/java/com/mydata/mydatatestbed/service/impl/FileServiceImpl.java:46 | the index of the last occurrence of the character, or -1 when it does not occur |
| FileStorage.Extension | src/main/java/com/mydata/mydatatestbed/service/impl/FileServiceImpl.java:44-47 | empty for a null name or a name without `.`; otherwise a suffix of the name that starts at its last `.`, so it has exactly one `.`, at its start |
| FileStorage.ExtensionOfSuffix | src/main/java/com/mydata/mydatatestbed/service/impl/FileServiceImpl.java:44-47 | a name ending in a one-dot extension yields exactly that extension |
| FileStorage.StoredNameIsSafe | src/main/java/com/mydata/mydatatestbed/service/impl/FileServiceImpl.java:51-64 | the stored name starts with the UUID, continues with the extension, and never contains `..` |
| FileStorage.StoredNameIgnoresBase | src/main/java/com/mydata/mydatatestbed/service/impl/FileServiceImpl.java:51 | two names with the same extension give the same stored name, so the base part never reaches the disk |
| FileStorage.StoredName | src/main/java/com/mydata/mydatatestbed/service/impl/FileServiceImpl.java:44-51 | the stored name is the UUID followed by the extension, nothing else |
| FileStorage.StoredPath | src/main/java/com/mydata/mydatatestbed/service/impl/FileServiceImpl.java:56-64 | the stored path is the `board` directory under the root, a `/`, then the stored name |
| FileStorage.StoredPathsDiffer | src/main/java/com/mydata/mydatatestbed/service/impl/FileServiceImpl.java:51-64 | two different UUIDs give two different stored paths, whatever the two file names |
| FileStorage.DirsAfterSave | src/main/java/com/mydata/mydatatestbed/service/impl/FileServiceImpl.java:58-61 | a save adds at most its directory, and the directory exists after every save that does not throw |
| FileStorage.FilesAfterSave | src/main/java/com/mydata/mydatatestbed/service/impl/FileServiceImpl.java:59-70 | a save that does not throw puts the bytes at the path; whatever happens, no other path changes, and a path that held no file holds at most a prefix of the bytes |
| FileStorage.Deleted | src/main/java/com/mydata/mydatatestbed/service/impl/FileServiceImpl.java:80-88 | a failed delete changes nothing; otherwise the path is gone; no other file changes |
| FileStorage.DeleteIsIdempotent | src/main/java/com/mydata/mydatatestbed/service/impl/FileServiceImpl.java:80-88 | `Deleted` is the whole effect of one `DeleteFile` call, so two calls leave what one call leaves when both succeed, and an absent path is a no-op |
| FileStorage.FileStore.SaveFile | src/main/java/com/mydata/mydatatestbed/service/impl/FileServiceImpl.java:38-78 | one save call on the UUID path; it throws iff a missing directory cannot be created, the upload cannot be opened, or `Files.copy` fails; the files become `FilesAfterSave`, so a failed copy can remove the target or leave a partial file there; the directories become `DirsAfterSave`; on success the result carries the path, the unchanged original name and the size |
| FileStorage.FileStore.DeleteFile | src/main/java/com/mydata/mydatatestbed/service/impl/FileServiceImpl.java:80-88 | one delete call; the files become `Deleted` of the old files (an I/O failure is swallowed); the directories do not change |
| BoardServices.SavedInfo | src/main/java/com/mydata/mydatatestbed/service/impl/BoardServiceImpl.java:123-133 | a save result exists iff a non-empty upload came |
| BoardServices.SaveEffect | src/main/java/com/mydata/mydatatestbed/service/impl/BoardServiceImpl.java:79-81 | the files after the service's save: unchanged without an upload, and the upload's bytes at its stored path when the save does not throw |
| BoardServices.CanEdit | src/main/java/com/mydata/mydatatestbed/service/impl/BoardServiceImpl.java:112 | the update rule: only the author |
| BoardServices.CanDelete | src/main/java/com/mydata/mydatatestbed/service/impl/BoardServiceImpl.java:155 | the delete rule: the author or an administrator |
| BoardServices.EditRightsWithinDeleteRights | src/main/java/com/mydata/mydatatestbed/service/impl/BoardServiceImpl.java:112-155 | whoever may update a post may delete it, and anyone else who may delete it is an administrator |
| BoardServices.ReplacedPath | src/main/java/com/mydata/mydatatestbed/service/impl/BoardServiceImpl.java:117-133 | an update deletes the old path iff there is one and the caller asked to drop it or sent a replacement; it is never deleted twice |
| BoardServices.AfterUpdate | src/main/java/com/mydata/mydatatestbed/service/impl/BoardServiceImpl.java:117-137 | the row after an update: title and content replaced; a saved upload installs its whole triple; without one the triple is kept, or cleared when asked; member and counter kept; coherent triples stay coherent |
| BoardServices.UpdateStepsCompose | src/main/java/com/mydata/mydatatestbed/service/impl/BoardServiceImpl.java:117-133 | the drop step and the replace step together make the single delete of `ReplacedPath`, leave the same files, and produce `AfterUpdate` |
| BoardServices.ReplacingRowKeepsReferences | src/main/java/com/mydata/mydatatestbed/service/impl/BoardServiceImpl.java:103-138 | rewriting one row keeps every row's file present, when the only file that may vanish is the one that row referenced |
| BoardServices.RemovingRowKeepsReferences | src/main/java/com/mydata/mydatatestbed/service/impl/BoardServiceImpl.java:147-166 | removing a row whose file may vanish keeps every other row's file present |
| BoardServices.InstallingRowKeepsDistinct | src/main/java/com/mydata/mydatatestbed/service/impl/BoardServiceImpl.java:76-137 | writing a row whose path no other row uses keeps every row's path distinct |
| BoardServices.SaveKeepsOldFiles | src/main/java/com/mydata/mydatatestbed/service/impl/FileServiceImpl.java:59-70 | a save to a fresh path leaves every existing file in place, with its contents |
| BoardServices.CleanupRestores | src/main/java/com/mydata/mydatatestbed/service/impl/FileServiceImpl.java:59-88 | deleting the fresh path a failed save wrote to leaves every old file intact, and restores the files exactly unless that delete fails too |
| BoardServices.BoardService.GetBoardDetail | src/main/java/com/mydata/mydatatestbed/service/impl/BoardServiceImpl.java:50-57 | an unknown id fails and changes nothing; a known id has its counter advanced once and returns the detail of the updated post |
| BoardServices.BoardService.GetBoardDetailWithoutViewCount | src/main/java/com/mydata/mydatatestbed/service/impl/BoardServiceImpl.java:59-64 | fails iff the id is unknown, and otherwise returns the post's detail with the stored counter; it reads only |
| BoardServices.BoardService.CreateBoard | src/main/java/com/mydata/mydatatestbed/service/impl/BoardServiceImpl.java:74-91 | given a fresh UUID, without an upload it inserts a post with no attachment and makes no store call; with one it saves first and, iff the save throws, inserts nothing, while the files and directories are whatever the failed save left; otherwise the new row records the saved path, name and size; paths stay distinct and every row's file stays present |
| BoardServices.BoardService.UpdateBoard | src/main/java/com/mydata/mydatatestbed/service/impl/BoardServiceImpl.java:103-138 | an unknown id or a non-author (administrators included) fails with no change and no store call; otherwise the log is the delete of `ReplacedPath` followed by the save, the files are the save's effect on what the delete kept, the directories are the save's, and the row becomes `AfterUpdate`; a failed save rolls back the row but not the delete, so the row can point at a missing file; a replaced or dropped file whose delete went through is gone afterwards, whatever the save did; paths stay distinct |
| BoardServices.BoardService.CommitUpdate | src/main/java/com/mydata/mydatatestbed/service/impl/BoardServiceImpl.java:116-137 | the authorised part of the update as written: apply the steps, then store the row or roll it back, with the log, files, directories and row that `UpdateBoard` states and no orphan left by a delete that went through |
| BoardServices.DeletedStaysGone | src/main/java/com/mydata/mydatatestbed/service/impl/BoardServiceImpl.java:121-130 | a file deleted before a save to another path is still absent after the save, whether or not the save throws |
| BoardServices.BoardService.ApplyUpdate | src/main/java/com/mydata/mydatatestbed/service/impl/BoardServiceImpl.java:116-137 | the drop and replace steps on the loaded post: one delete of `ReplacedPath`, then the save; files, directories and post as `UpdateBoard` states |
| BoardServices.BoardService.DropAttachment | src/main/java/com/mydata/mydatatestbed/service/impl/BoardServiceImpl.java:117-120 | when asked and a path is set, one delete of that path and a cleared triple; otherwise nothing |
| BoardServices.BoardService.InstallUpload | src/main/java/com/mydata/mydatatestbed/service/impl/BoardServiceImpl.java:123-137 | with an upload, a delete of any path still set, then the save; the files are the save's effect on what the delete kept; the post gets the new triple, or is left alone when the save throws; without an upload, title and content only |
| BoardServices.BoardService.SaveAndInstall | src/main/java/com/mydata/mydatatestbed/service/impl/BoardServiceImpl.java:129-137 | with an upload, one save whose effect on files and directories is `SaveEffect` and `DirsEffect`, and the post is updated with the saved triple iff the save does not throw; without an upload, no store call, and title and content are replaced |
| BoardServices.BoardService.UpdateBoardSafe | src/main/java/com/mydata/mydatatestbed/service/impl/BoardServiceImpl.java:123-133 | the corrected update, given a fresh UUID: the same authorisation and resulting row; the new file is saved before the old one is deleted; a failed save is followed by a delete of its own path, so every old file survives intact and the files are exactly as before unless that delete fails; after a successful update the replaced or dropped file is gone unless its delete fails; every row's file stays present |
| BoardServices.BoardService.CommitUpdateSafe | src/main/java/com/mydata/mydatatestbed/service/impl/BoardServiceImpl.java:116-137 | the authorised part of the corrected update: apply the corrected steps, then store the row or roll it back, with the outcome `UpdateBoardSafe` states |
| BoardServices.BoardService.ApplyUpdateSafe | src/main/java/com/mydata/mydatatestbed/service/impl/BoardServiceImpl.java:123-133 | save first, then delete the old path; after a failed save, delete the save's own path, which leaves the old files intact |
| BoardServices.BoardService.DeleteBoard | src/main/java/com/mydata/mydatatestbed/service/impl/BoardServiceImpl.java:147-166 | an unknown id, or a caller who is neither author nor administrator, fails with nothing changed; otherwise one delete of the attachment if any, then the row is removed; the removed post's file is gone unless its delete fails; every remaining row's file stays present |
| BoardServices.ServiceWithOnePost | src/main/java/com/mydata/mydatatestbed/service/impl/BoardServiceImpl.java:74-91 | creating one post with an attachment in an empty service leaves one row, referencing the only stored file |
| BoardServices.FailedReplaceScenario | src/main/java/com/mydata/mydatatestbed/service/impl/BoardServiceImpl.java:126-130 | a concrete run (a post with a file, then a replacement whose upload cannot be opened) ends with the post referencing a file the store no longer has |
| BoardServices.ReplaceWithUnopenable | src/main/java/com/mydata/mydatatestbed/service/impl/BoardServiceImpl.java:121-133 | the second half of that run: an author's replacement of a post's attachment by an upload that cannot be opened, with a fresh UUID, leaves the post referencing a missing file |
| FilenameEncoding.Utf8 | src/main/java/com/mydata/mydatatestbed/controller/SupportController.java:522 | a code point becomes 1 to 4 bytes; ASCII is one byte of the same value; longer forms start with a lead byte followed by continuation bytes |
| FilenameEncoding.HexValueOfDigit | src/main/java/com/mydata/mydatatestbed/controller/SupportController.java:522 | reading back an upper-case hex digit gives its value |
| FilenameEncoding.FormEncodeChar | src/main/java/com/mydata/mydatatestbed/controller/SupportController.java:522 | one character never encodes to a space, and encodes to something containing `+` iff it is a space |
| FilenameEncoding.FormEncode | src/main/java/com/mydata/mydatatestbed/controller/SupportController.java:522 | `URLEncoder.encode` leaves no space, and its output contains `+` iff the name contains a space, so every `+` stands for a space |
| FilenameEncoding.EncodeFilename | src/main/java/com/mydata/mydatatestbed/controller/SupportController.java:522-523 | the encoded name never contains `+` |
| FilenameEncoding.EncodeFilenameIsPercentEncode | src/main/java/com/mydata/mydatatestbed/controller/SupportController.java:522-523 | form encoding followed by `+`→`%20` equals per-character percent-encoding of the UTF-8 bytes, with `A-Za-z0-9.-*_` kept |
| FilenameEncoding.SpaceAndPlus | src/main/java/com/mydata/mydatatestbed/controller/SupportController.java:522-523 | a space becomes `%20` and a literal `+` becomes `%2B` |
| FilenameEncoding.EncodedFilenameAlphabet | src/main/java/com/mydata/mydatatestbed/controller/SupportController.java:522-523 | the encoded name uses only `A-Za-z0-9.-*_` and `%HH` triplets, with no `+` and no space |
| FilenameEncoding.PercentEncodeRoundTrip | src/main/java/com/mydata/mydatatestbed/controller/SupportController.java:522-523 | percent-decoding the encoding yields exactly the UTF-8 bytes of the input |
| FilenameEncoding.EncodeFilenameRoundTrip | src/main/java/com/mydata/mydatatestbed/controller/SupportController.java:522-523 | percent-decoding the encoded file name yields the UTF-8 bytes of the original name |
| FilenameEncoding.StarIsNotEncoded | src/main/java/com/mydata/mydatatestbed/controller/SupportController.java:522-523 | `*` passes through unencoded, although it is not an RFC 5987 attr-char |
| FilenameEncoding.StarToHex | src/main/java/com/mydata/mydatatestbed/controller/SupportController.java:522-523 | escaping `*` after the code's encoding gives the strict encoding |
| FilenameEncoding.EncodeFilenameStrictIsPercentEncode | src/main/java/com/mydata/mydatatestbed/controller/SupportController.java:522-523 | the corrected encoder equals percent-encoding with only attr-chars kept |
| FilenameEncoding.StrictFilenameIsExtValue | src/main/java/com/mydata/mydatatestbed/controller/SupportController.java:522-523 | the corrected encoding consists only of RFC 5987 attr-chars and `%HH` triplets, and still decodes to the UTF-8 bytes |
| FilenameEncoding.ContentDisposition | src/main/java/com/mydata/mydatatestbed/controller/SupportController.java:528-530 | the header value is exactly `attachment; filename*=UTF-8''` followed by the encoded name |
| SupportPages.BoardFileDownload | src/main/java/com/mydata/mydatatestbed/controller/SupportController.java:495-545 | a failed lookup, a null path or a null name goes to the list page; no attachment, or a missing or unreadable file, goes to the post's page; the file is served, with the encoded header, iff it has a path, exists, is readable and has a name |
| SupportPages.DownloadBoardFile | src/main/java/com/mydata/mydatatestbed/controller/SupportController.java:496-499 | the download uses the lookup that does not count views and modifies nothing; an unknown id goes to the list page; a served path is the post's stored path |
| SupportPages.ResourceDownload | src/main/java/com/mydata/mydatatestbed/controller/SupportController.java:300-326 | the same rule for resources: a failed lookup goes to `/support/resource`; a missing or unreadable file goes to `/support/resource/{id}`; otherwise the file is served with the encoded header |
| SupportPages.EditFormAdmits | src/main/java/com/mydata/mydatatestbed/controller/SupportController.java:425 | the edit form admits the post's author or an administrator |
| SupportPages.EditGateIsDeleteRule | src/main/java/com/mydata/mydatatestbed/controller/SupportController.java:425 | the edit form's gate admits exactly the callers the service lets delete the post |
| SupportPages.AdminEditRejected | src/main/java/com/mydata/mydatatestbed/controller/SupportController.java:425 | an administrator who is not the author passes the edit form's gate, but the service refuses the update |
| SupportPages.AuthorGateAgreesWithService | src/main/java/com/mydata/mydatatestbed/controller/SupportController.java:425 | the author-only gate admits exactly the callers the service lets update |
| Inquiries.Opened | src/main/java/com/mydata/mydatatestbed/entity/Inquiry.java:72-78 | a new inquiry is WAITING, with no answer, answerer or answer time, and the given member, title and content |
| Inquiries.Answered | src/main/java/com/mydata/mydatatestbed/entity/Inquiry.java:84-89 | answering sets answer, answerer and time, makes the inquiry COMPLETED, and keeps member, title and content |
| Inquiries.AnswerAgainOverwrites | src/main/java/com/mydata/mydatatestbed/entity/Inquiry.java:84-89 | there is no guard: answering twice equals answering once with the second answer, and the inquiry stays COMPLETED |
| Inquiries.Inquiry.constructor | src/main/java/com/mydata/mydatatestbed/entity/Inquiry.java:72-78 | the new inquiry's state is `Opened` |
| Inquiries.Inquiry.AddAnswer | src/main/java/com/mydata/mydatatestbed/entity/Inquiry.java:84-89 | the inquiry's state becomes `Answered` of its old state |
| InquiryServices.FindRow | src/main/java/com/mydata/mydatatestbed/service/impl/InquiryServiceImpl.java:41-42 | a found row is in the table with that id; no row found means no row has that id |
| InquiryServices.Mine | src/main/java/com/mydata/mydatatestbed/service/impl/InquiryServiceImpl.java:33-37 | exactly the rows the member owns |
| InquiryServices.Insert | src/main/java/com/mydata/mydatatestbed/service/impl/InquiryServiceImpl.java:33-37 | inserting into a newest-first list keeps it newest-first and adds exactly that row |
| InquiryServices.SortNewestFirst | src/main/java/com/mydata/mydatatestbed/service/impl/InquiryServiceImpl.java:33-37 | the output is newest-first and a permutation of the input |
| InquiryServices.MyInquiries | src/main/java/com/mydata/mydatatestbed/service/impl/InquiryServiceImpl.java:33-37 | the member's rows, each once, newest first |
| InquiryServices.CountIsListLength | src/main/java/com/mydata/mydatatestbed/service/impl/InquiryServiceImpl.java:52-55 | the count of the member's rows equals the length of their list |
| InquiryServices.InquiryService.CreateInquiry | src/main/java/com/mydata/mydatatestbed/service/impl/InquiryServiceImpl.java:25-31 | one WAITING inquiry with the given member, title and content is appended under a new id, which is returned and under which it is found |
| InquiryServices.InquiryService.GetInquiryDetail | src/main/java/com/mydata/mydatatestbed/service/impl/InquiryServiceImpl.java:39-50 | fails iff the id is unknown; for a known id it succeeds iff the caller is the author, administrators included, returns that row, and otherwise denies access; it reads only |
| InquiryServices.InquiryService.GetMyInquiries | src/main/java/com/mydata/mydatatestbed/service/impl/InquiryServiceImpl.java:33-37 | only and all of the member's inquiries, each exactly as often as in the table (a permutation of the member's rows), newest first |
| InquiryServices.InquiryService.CountMyInquiries | src/main/java/com/mydata/mydatatestbed/service/impl/InquiryServiceImpl.java:52-55 | the number of rows the member wrote (`countByMember`), which equals the length of their list |
| InquiryServices.FindRowUnique | src/main/java/com/mydata/mydatatestbed/service/impl/InquiryServiceImpl.java:41-42 | with increasing ids, looking up a row's id finds that row |
| InquiryServices.FindLast | src/main/java/com/mydata/mydatatestbed/service/impl/InquiryServiceImpl.java:25-31 | a row appended with the largest id is found under it |
| VerificationTokens.NewToken | src/main/java/com/mydata/mydatatestbed/entity/EmailVerificationToken.java:43-49 | the token string is the fresh UUID, the address is stored verbatim, creation is now, and the expiry is the given number of hours later |
| VerificationTokens.IsExpired | src/main/java/com/mydata/mydatatestbed/entity/EmailVerificationToken.java:51-53 | a token is expired when the clock reads strictly after its expiry |
| VerificationTokens.ExpiryIsMonotone | src/main/java/com/mydata/mydatatestbed/entity/EmailVerificationToken.java:51-53 | once expired, a token stays expired |
| VerificationTokens.ValidityWindow | src/main/java/com/mydata/mydatatestbed/entity/EmailVerificationToken.java:51-53 | a new token is valid from creation up to and including its expiry, and expired afterwards |
| EmailServices.WithoutEmail | src/main/java/com/mydata/mydatatestbed/service/impl/EmailServiceImpl.java:32 | exactly the tokens of other addresses remain, each unchanged |
| EmailServices.ReissueKeepsOneToken | src/main/java/com/mydata/mydatatestbed/service/impl/EmailServiceImpl.java:32-39 | after a send the address holds exactly one token, the new one, and every other address keeps its tokens |
| EmailServices.ReissueTwice | src/main/java/com/mydata/mydatatestbed/service/impl/EmailServiceImpl.java:32-39 | two successful sends to one address leave only the second token |
| EmailServices.EmailService.SendVerificationEmail | src/main/java/com/mydata/mydatatestbed/service/impl/EmailServiceImpl.java:29-45 | drop the address's tokens, save a new one, send the mail; the deletes are only queued while the identity-keyed insert runs at once, so a UUID equal to any token in the table, the address's own included, breaks the unique column; that or a failed mail rolls back to the old table and reports which; success reissues and returns the expiry, 24 hours after now |
| EmailServices.EmailService.VerifyToken | src/main/java/com/mydata/mydatatestbed/service/impl/EmailServiceImpl.java:47-58 | an unknown token is an invalid link; an expired one is reported expired; otherwise its address is returned; the table is never changed |
| EmailServices.EmailService.ResendVerificationEmail | src/main/java/com/mydata/mydatatestbed/service/impl/EmailServiceImpl.java:60-63 | the same outcome as a send in every case |
| EmailServices.FreshTokenVerifies | src/main/java/com/mydata/mydatatestbed/service/impl/EmailServiceImpl.java:26-39 | whatever the table held before, after a send the new token verifies to its address for 24 hours inclusive, and is expired after that |

## Left out

- Listing and searching posts (`getBoardList`) is left out. Its LIKE queries and paging are repository queries, not logic of the core.
- Paging of inquiry lists is left out. Equal creation times keep table order, while the database order for ties is unspecified.
- Creation and update timestamps and the formatted file size (`FileSizeFormatter`) are left out. The size formatting uses floating-point formatting.
- The mail body and its transport are left out; the transport is the `mailSent` outcome.
- A mail that was sent before the commit of its transaction failed is not modelled.
- `Paths.get` normalisation, `InvalidPathException` and absolute-path resolution are left out. A stored path is the upload root, `/board/` and the stored name.
- The repositories are left out. Each table is a map or sequence of row values, and ids come from a counter.
- Concurrency and isolation between requests are left out. Each service call is one atomic step.
- The HTTP layer is left out: routing, flash messages, view models, and the DTO mapping of inquiries (a field copy).
- BoardServices.BoardService.CreateBoard and BoardServices.BoardService.UpdateBoard require the form to be valid (non-blank title and content, title at most 200 UTF-16 units). Bean Validation enforces this in the controller before the service runs.
- The resource service behind `downloadResource` is not part of this model. Its lookup is a parameter.
- BoardServices.BoardService.CreateBoard, BoardServices.BoardService.UpdateBoard and BoardServices.BoardService.UpdateBoardSafe require the drawn UUID to be fresh (`FreshUpload`): its stored path holds no file and no row references it. `UUID.randomUUID` makes a clash improbable but not impossible, and the model does not cover a clash.
- A name holding a lone UTF-16 surrogate is not modelled. `URLEncoder` writes such a character as `%3F`; a Dafny `char` is a Unicode scalar value, so the case cannot be written.
- Board.Load stands for loading an entity from its row (JPA hydration). It has no source counterpart.

## Findings

| source | as written | input that shows it | evidently intended | confidence | as-written member | corrected member |
|---|---|---|---|---|---|---|
| src/main/java/com/mydata/mydatatestbed/service/impl/BoardServiceImpl.java:126-130 | the old file is deleted before the new one is saved, and a failed save rolls back only the row | a post with an attachment, updated with a new upload whose input stream cannot be opened | save the new file first, remove whatever a failed save left at its path, and delete the old file only after the row no longer references it | not executed | BoardServices.FailedReplaceScenario | BoardServices.BoardService.UpdateBoardSafe |
| src/main/java/com/mydata/mydatatestbed/controller/SupportController.java:425 | the edit form admits the author or an administrator | an administrator editing another member's post: the form opens, the service rejects the update | the form's gate matches the service's author-only rule | not executed | SupportPages.AdminEditRejected | SupportPages.AuthorGateAgreesWithService |
| src/main/java/com/mydata/mydatatestbed/mapper/BoardMapper.java:40 | the list flag tests only for a non-null path | a post whose stored path is `""`: the list shows an attachment, the detail page does not | the list flag uses the detail page's test | not executed | BoardMapper.AttachmentFlagsDifferOnlyOnEmptyPath | BoardMapper.ToListResponseCorrected |
| src/main/java/com/mydata/mydatatestbed/controller/SupportController.java:522-523 | `URLEncoder` leaves `*`, which is not an RFC 5987 attr-char | the file name `a*.txt` is sent as `a*.txt` in `filename*` | escape `*` as `%2A` | not executed | FilenameEncoding.StarIsNotEncoded | FilenameEncoding.StrictFilenameIsExtValue |
