# Goal recognition pipeline: a Dafny model

This project models the text-processing core of a kitchen-activity goal
recognition pipeline, and proves properties of that model. The core is four
Python scripts:

- `goal-rec/create_goal_states.py` builds one goal state per recipe from the
  relations of the last frame of each video. It rewrites the egg group
  (`check_group`), merges a video's relations into its recipe's list
  (`add_relations`), and writes one encoded goal state per recipe
  (`convert_relations_string`, `save_goal`).
- `goal-rec/run_recognizer.py` runs a video frame by frame against the
  external recogniser. Every frame is normalised. A frame that differs from
  the previous one is encoded and appended to the observation file
  (`FileObservations`). The recogniser is asked for its candidate goals
  (`GoalRecognizer.check_goals`). The score after `': '` of each candidate
  line is then appended to every tracked goal the line names (`add_goals`).
- `goal-rec/create_template.py` writes the problem template the recogniser
  starts from. It holds the `(:objects …)` block, the `(:init …)` block with
  a type fact per non-group object and the sorted initial relations, and the
  `(:goal …)` placeholder.
- `object-recognition/lis2yolo.py` converts LIS bounding-box annotations to
  the keras-yolo3 format. It writes one line, `path xmin,ymin,xmax,ymax,id
  …`, per run of consecutive records with the same frame index (line 1 never
  moves `last_index`, and a frame that comes back is written again), and
  numbers the labels densely in the order they
  are first met across all annotation files. The labels go to the classes
  file in id order.

## Modules

| file | module | what it holds |
|---|---|---|
| `common.dfy` | `Common` | names, relation tuples, the Python exceptions that escape (`KeyError`, `IndexError`, `NameError`, `ValueError`) |
| `text.dfy` | `Text` | the string operations used: `in`, `find`, `split(sep)[1]`, `replace`, `count`, `isdigit`, `int`, `'%d'`, `strip`, `lower` |
| `ordering.dfy` | `Ordering` | Python's `<=` on strings and on tuples of strings, and `sorted()`, with its uniqueness |
| `normalizer.dfy` | `Normalizer` | the `check_group` loop shared by the three goal-recognition scripts |
| `encoder.dfy` | `Encoder` | `convert_relations_string` of create_goal_states.py and run_recognizer.py (the two copies are identical) |
| `goal_states.dfy` | `CreateGoalStates` | `add_relations`, `save_goal`, the recipe key, and the class `GoalStates` holding the recipes dictionary |
| `session.dfy` | `Session` | `GoalRecognizer.check_goals` over the lines the recogniser will print, and the class `GoalRecognizer` |
| `scores.dfy` | `Scores` | `add_goals`, and the class `ScoreTable` |
| `run_recognizer.dfy` | `RunRecognizer` | `FileObservations`, the frame loop of `run_file` as a method, and its specification `Run` |
| `create_template.dfy` | `CreateTemplate` | `convert_objects_string`, the init block, `save_template` |
| `lis2yolo.dfy` | `Lis2Yolo` | `change_annotation` and `main`, and the class `Converter` holding the class dictionary and the output file |

Every operation that updates state in place is a method. It is proved
equal to a specification function of the old state, and the properties are
lemmas about that function. Examples are `ApplyGroup` (the caller's array is
rewritten in place), `ScoreTable.AddGoals`, `GoalRecognizer.CheckGoals`,
`FileObservations.WriteObservation`, `GoalStates.AddRelations`, `RunFile`
and `Converter.ChangeAnnotation`. Python exceptions are values (`Outcome`,
`Option<Error>`, a run status). The model keeps state changed before an
exception, as Python leaves it.

Behaviour of the code that the lemmas make explicit:

- The docstrings of `convert_relations_string` and `check_group` do not
  match what the code computes. `DocstringExample` and `CheckGroupExample`
  state what the code actually returns.
- `add_relations` deletes the conflicting positions one by one from a list
  that shrinks as it goes. A later deletion may hit an entry that did not
  conflict (`ShrinkingDeletionExample`) or raise `IndexError`
  (`DeletionIndexErrorExample`).
- The recipe key is the file stem without its first two characters. A
  two-digit video number keeps its dash (`RecipeKeyTwoDigits`).
- `add_goals` reads the field after the first `': '`. A line without one
  raises `IndexError`, and nothing after it is read.
- `check_goals` does not test the first line it reads for `EOF`. When no
  terminator comes, `readline()` keeps returning `b""` and the loop never
  ends (`Hang`, `Diverges`).
- In `change_annotation`, the test `i != 1` keeps line 1 from moving
  `last_index`. A first frame with several boxes read on line 1 is split
  over two output lines (`FirstFrameSplit`). A frame that comes back after another
  frame is written again (`FrameReturns`). A first record at line 0 whose
  frame is not 0 needs `path` before it is bound, which is a `NameError`
  (`NoHeader`). So does a file without records (`NoRecords`).

## Model

| member | source | states |
|---|---|---|
| Text.SecondField | goal-rec/run_recognizer.py:91 | `s.split(sep)[1]` raises `IndexError` exactly when `sep` does not occur; otherwise the field holds no `sep` |
| Text.RemoveChar | goal-rec/run_recognizer.py:116 | `replace(c, '')` leaves no `c` and adds no character |
| Text.RemoveAll | goal-rec/run_recognizer.py:116 | `replace(pat, '')` adds no character |
| Text.IntToString | object-recognition/lis2yolo.py:55 | `'%d'` gives a non-empty text with no comma, space or newline |
| Ordering.StrLeIsTotalOrder | goal-rec/create_goal_states.py:84 | string comparison is a total order (total, antisymmetric, transitive) |
| Ordering.TupleLeIsTotalOrder | goal-rec/create_template.py:44 | lexicographic tuple comparison, a proper prefix first, is a total order |
| Ordering.Sort | goal-rec/create_template.py:44 | `sorted()` returns a permutation of its input |
| Ordering.SortIsSorted | goal-rec/create_template.py:44 | under a total order, `sorted()` is sorted, a permutation, and the only sorted permutation |
| Ordering.SortedUnique | goal-rec/create_goal_states.py:84 | two sorted permutations of one list are equal |
| Normalizer.Rewritten | goal-rec/create_goal_states.py:109-117 | one rewritten triple per input position: a variant subject or object becomes `egg` |
| Normalizer.AddedAppend | goal-rec/create_goal_states.py:109-116 | the membership pairs are collected in scan order |
| Normalizer.AddedCount | goal-rec/create_goal_states.py:111-116 | one `(variant, 'egg')` pair per variant endpoint, and no other pair |
| Normalizer.NormalizeShape | goal-rec/create_goal_states.py:108-118 | the result is the rewritten list followed by the pairs; a triple without a variant is kept |
| Normalizer.NormalizeIdempotent | goal-rec/create_goal_states.py:108-118 | a second pass rewrites nothing and adds no pair |
| Normalizer.NoVariantsAddNothing | goal-rec/create_goal_states.py:111-117 | relations without variants add no pair |
| Normalizer.ApplyGroup | goal-rec/create_goal_states.py:108-118 | the caller's array is rewritten in place and the result is rewritten list plus pairs |
| Normalizer.ApplyGroups | goal-rec/run_recognizer.py:37-47 | with a groups dictionary: a missing `'egg'` raises `KeyError` on the first triple, leaving the array unchanged |
| Encoder.Encode | goal-rec/create_goal_states.py:54-69 | no rows encode to the empty string |
| Encoder.AddKeysSpec | goal-rec/create_goal_states.py:62-64 | storing keys into `dobj` keeps them unique, adds exactly the stored names, and keeps earlier keys first |
| Encoder.KeysExactlyTheObjects | goal-rec/create_goal_states.py:55-68 | every object of a row is printed once in the prefix, and nothing else is |
| Encoder.StepOf | goal-rec/create_goal_states.py:56-64 | one row adds its keys and, for a pair or triple, its atom and a comma |
| Encoder.ContentIsTerminatedAtoms | goal-rec/create_goal_states.py:56-64 | `content` is the atoms joined by commas plus a trailing comma |
| Encoder.EncodeIsPrefixAndAtoms | goal-rec/create_goal_states.py:54-69 | the encoding is the object prefix followed by the atoms joined by commas |
| Encoder.EncodeNoTrailingComma | goal-rec/create_goal_states.py:69 | the encoding is empty exactly for no rows, and otherwise ends in `)` |
| Encoder.DocstringExample | goal-rec/create_goal_states.py:51-52 | the docstring input encodes to `(A1),(B1),(typeC1),(on A1 B1),(C typeC1)` |
| Encoder.EncodeOneLine | goal-rec/create_goal_states.py:54-69 | names without newlines encode to one line |
| Encoder.ObjectsString | goal-rec/create_goal_states.py:66-68 | the second loop prints `(k1),` for each key of `dobj`, in order |
| Encoder.ConvertRelationsString | goal-rec/create_goal_states.py:41-69 | the loop computes the encoding; a malformed first row leaves `o` unbound (`NameError`) |
| CreateGoalStates.CheckGroup | goal-rec/create_goal_states.py:93-118 | the list is rewritten in place with `GROUPS['egg']` and the pairs are appended |
| CreateGoalStates.CheckGroupExample | goal-rec/create_goal_states.py:104-107 | the docstring input gives the two rewritten triples and two pairs |
| CreateGoalStates.Conflict | goal-rec/create_goal_states.py:165 | the short-circuit test: `false` on different subjects, difference on triples, `IndexError` on equal pairs |
| CreateGoalStates.ConflictsUpToSpec | goal-rec/create_goal_states.py:161-166 | `remove` lists, in ascending order, exactly the conflicting positions; the scan raises exactly when a test raises |
| CreateGoalStates.ScanConflicts | goal-rec/create_goal_states.py:161-166 | the `enumerate` loop computes that scan |
| CreateGoalStates.DeleteAll | goal-rec/create_goal_states.py:167-169 | the deletions only remove entries, and all of them succeed only if the list had room |
| CreateGoalStates.DeleteIndices | goal-rec/create_goal_states.py:168-169 | the `del` loop computes those deletions |
| CreateGoalStates.StepRelDuplicate | goal-rec/create_goal_states.py:163 | a relation already in the list changes nothing |
| CreateGoalStates.StepRelAppends | goal-rec/create_goal_states.py:170-171 | a new relation that contradicts no entry is appended |
| CreateGoalStates.StepRelConflictNotAppended | goal-rec/create_goal_states.py:163-171 | a relation that contradicts an entry is never appended |
| CreateGoalStates.StepRelSingleConflict | goal-rec/create_goal_states.py:167-169 | a single conflicting entry is deleted alone |
| CreateGoalStates.MergeOtherKeys | goal-rec/create_goal_states.py:160-174 | other recipes are untouched; the key is present afterwards iff it was or a relation was given |
| CreateGoalStates.MergeDuplicates | goal-rec/create_goal_states.py:160-163 | relations all in the list already leave the dictionary unchanged |
| CreateGoalStates.MergeNewKey | goal-rec/create_goal_states.py:172-174 | a new recipe stores the listing `list(set(rel))` of its first relation |
| CreateGoalStates.AddRelationsExample | goal-rec/create_goal_states.py:155-158 | the docstring example gives `{'f1': [('C','in','D'), ('E','in','F')]}` |
| CreateGoalStates.ShrinkingDeletionExample | goal-rec/create_goal_states.py:164-169 | with conflicts at 0 and 1, the entry at 2 is deleted and a conflicting entry survives |
| CreateGoalStates.DeletionIndexErrorExample | goal-rec/create_goal_states.py:167-169 | when every entry conflicts, the second deletion raises `IndexError` after the first is done |
| CreateGoalStates.Dedup | goal-rec/create_goal_states.py:173 | one listing `list(set(rel))` may give: the distinct names, each once |
| CreateGoalStates.GoalStates.constructor | goal-rec/create_goal_states.py:193 | `drecipes` starts empty |
| CreateGoalStates.GoalStates.AddRelations | goal-rec/create_goal_states.py:140-174 | the recipes afterwards are the merge of the values, for some listing of the first relation |
| CreateGoalStates.SortedKeysSpec | goal-rec/create_goal_states.py:84 | `sorted(relations)` visits every recipe once, in ascending order |
| CreateGoalStates.SortedRecipes | goal-rec/create_goal_states.py:84 | the sorting computes those keys |
| CreateGoalStates.SaveGoal | goal-rec/create_goal_states.py:72-87 | the content: one line per recipe for a dictionary, a single encoding for a list |
| CreateGoalStates.SaveLines | goal-rec/create_goal_states.py:83-85 | the loop over the sorted recipes computes the lines |
| CreateGoalStates.LinesContentSpec | goal-rec/create_goal_states.py:83-85 | when every recipe encodes, the content is the encodings joined by newlines, in key order |
| CreateGoalStates.LinesContentRaises | goal-rec/create_goal_states.py:84-85 | the first encoding that raises makes the whole call raise the same error |
| CreateGoalStates.LinesContentLineCount | goal-rec/create_goal_states.py:83-85 | names without newlines give one line per recipe |
| CreateGoalStates.SaveGoalLineCount | goal-rec/create_goal_states.py:83-85 | the goal-state file has as many lines as recipes |
| CreateGoalStates.SaveGoalSingleLine | goal-rec/create_goal_states.py:86-87 | the list form writes one encoding and no newline |
| CreateGoalStates.RecipeKey | goal-rec/create_goal_states.py:197 | the key is the stem without its first two characters |
| CreateGoalStates.RecipeKeySingleDigit | goal-rec/create_goal_states.py:197 | videos `d-r` with one digit `d` share the key `r` |
| CreateGoalStates.RecipeKeyTwoDigits | goal-rec/create_goal_states.py:197 | `10-boiledegg` gets the key `-boiledegg`, unlike `1-boiledegg` |
| Session.ReplyLine | goal-rec/run_recognizer.py:116 | a cleaned reply line holds no apostrophe |
| Session.PlainRepr | goal-rec/run_recognizer.py:116 | `str()` of a plain line `text\n` is `b'text\n'` with an escaped newline |
| Session.PlainReplyLine | goal-rec/run_recognizer.py:116 | a plain line `text\n` is reported as `b` followed by the text |
| Session.ApostropheReplyLine | goal-rec/run_recognizer.py:116 | `it's\n` is reported as `b"its"`: the double quotes `repr` chose stay |
| Session.FollowHang | goal-rec/run_recognizer.py:115-121 | after the first line, the loop never ends exactly when no `x` or `EOF` line comes |
| Session.FollowEnd | goal-rec/run_recognizer.py:115-121 | the loop stops at the first `x` or `EOF` line; `EOF` sends the second stop |
| Session.FollowReply | goal-rec/run_recognizer.py:115-117 | every line before the terminator is reported, cleaned, in order |
| Session.ListenSpec | goal-rec/run_recognizer.py:113-122 | the whole call: hang iff no terminator (first line not tested for `EOF`); otherwise the lines before the terminator, cleaned |
| Session.GoalRecognizer.constructor | goal-rec/run_recognizer.py:103-107 | the process starts with its output to come and nothing written to it |
| Session.GoalRecognizer.ReadLine | goal-rec/run_recognizer.py:113 | `readline()` takes the next line of output and writes nothing |
| Session.GoalRecognizer.CheckGoals | goal-rec/run_recognizer.py:109-122 | the reply, the output consumed and the commands written (`r`, `x`, and `x` again after `EOF`) |
| Scores.ParseFloat | goal-rec/run_recognizer.py:91 | `float()` gives NaN exactly for the NaN spellings |
| Scores.Recorded | goal-rec/run_recognizer.py:94-95 | a NaN is recorded as `-1`; any other score as it is |
| Scores.ScoreOf | goal-rec/run_recognizer.py:91 | the score raises `IndexError` exactly when the line holds no `': '` |
| Scores.Append | goal-rec/run_recognizer.py:96-99 | the goal's list grows by the score (a new list if absent); other lists are unchanged |
| Scores.AddCandidateValue | goal-rec/run_recognizer.py:92-99 | a line gives goal `g` its score once per listing of `g` when the line names `g` |
| Scores.AddCandidateKeys | goal-rec/run_recognizer.py:92-99 | a line adds keys only for tracked goals and removes none |
| Scores.AddGoalsColumn | goal-rec/run_recognizer.py:89-99 | a goal's list grows by exactly its column: one score per (line, listed goal) match, in line order |
| Scores.AddGoalsKeys | goal-rec/run_recognizer.py:89-99 | keys only grow, new keys are tracked goals, and old lists are prefixes of the new, even when the call raises |
| Scores.AddGoalsRaises | goal-rec/run_recognizer.py:91 | the call raises exactly when some line lacks `': '`, and then with `IndexError` |
| Scores.AddGoalsStops | goal-rec/run_recognizer.py:90-91 | lines after the first one without `': '` are never read |
| Scores.AddGoalsNoNaN | goal-rec/run_recognizer.py:94-95 | no NaN is ever stored |
| Scores.ScoreTable.constructor | goal-rec/run_recognizer.py:167 | `goal_scores` starts empty |
| Scores.ScoreTable.AddGoals | goal-rec/run_recognizer.py:89-99 | the table is updated in place; appends made before an exception are kept |
| RunRecognizer.CheckGroup | goal-rec/run_recognizer.py:20-47 | the in-place rewrite with `groups['egg']`; `KeyError` when it is missing and the list is not empty |
| RunRecognizer.GroupsOnlyEgg | goal-rec/run_recognizer.py:40-43 | only the `'egg'` entry of the groups matters |
| RunRecognizer.GroupsAgreeWithGoalStates | goal-rec/run_recognizer.py:37-47 | with `{'egg': GROUPS['egg']}` it is the function of create_goal_states.py; without `'egg'` it raises on every non-empty frame |
| RunRecognizer.ObservationOf | goal-rec/run_recognizer.py:179 | a normalised frame always encodes, to the object prefix followed by the atoms |
| RunRecognizer.FileObservations.constructor | goal-rec/run_recognizer.py:126-132 | the file is truncated |
| RunRecognizer.FileObservations.WriteObservation | goal-rec/run_recognizer.py:134-137 | the observation and a newline are appended to the file |
| RunRecognizer.ObservationFileLines | goal-rec/run_recognizer.py:134-135 | observations without newlines give one file line each |
| RunRecognizer.ProcessFrame | goal-rec/run_recognizer.py:175-184 | one iteration of the frame loop, on the objects, is one step of the specification |
| RunRecognizer.RunFile | goal-rec/run_recognizer.py:167-184 | the loop gives the scores, the observation file, the commands written and how the run ended |
| RunRecognizer.RunStopped | goal-rec/run_recognizer.py:174-184 | once the run raises or hangs, later frames change nothing |
| RunRecognizer.RunNormalPrefix | goal-rec/run_recognizer.py:174-184 | a run that ends normally was normal after every prefix of its frames |
| RunRecognizer.Norm | goal-rec/run_recognizer.py:175 | with an `'egg'` entry, normalisation always succeeds |
| RunRecognizer.RunObservations | goal-rec/run_recognizer.py:176-180 | a normal run writes exactly the encodings of the frames that differ from the previous one, and keeps the last frame |
| RunRecognizer.ChangedConstant | goal-rec/run_recognizer.py:176-183 | frames that all normalise alike give one observation, or none when there are no relations |
| RunRecognizer.RunCalls | goal-rec/run_recognizer.py:176-181 | the recogniser is asked once per observation written, and there are no more observations than frames |
| RunRecognizer.StepCalls | goal-rec/run_recognizer.py:176-184 | a frame sends `r` exactly when it writes an observation |
| RunRecognizer.ObserveCalls | goal-rec/run_recognizer.py:179-181 | writing an observation sends exactly one `r` |
| RunRecognizer.FrameBefore | goal-rec/run_recognizer.py:174-178 | before frame `i` of a normal run, `last_relations` is the previous normalised frame |
| RunRecognizer.FrameUnchanged | goal-rec/run_recognizer.py:182-183 | an unchanged frame writes nothing, asks nothing, and reuses the previous candidates |
| RunRecognizer.FrameChanged | goal-rec/run_recognizer.py:176-181 | a changed frame writes its encoding and takes the recogniser's next reply |
| RunRecognizer.FrameScores | goal-rec/run_recognizer.py:184 | every frame of a normal run adds to each goal its column of the candidates in force |
| CreateTemplate.CheckGroup | goal-rec/create_template.py:94-119 | the same rewrite, with the arguments swapped; `KeyError` without `'egg'` on a non-empty list |
| CreateTemplate.ConvertObjectsString | goal-rec/create_template.py:55-67 | the objects block |
| CreateTemplate.ObjectLinesAreLines | goal-rec/create_template.py:63-66 | the block is one line `  obj1` per object, in order |
| CreateTemplate.NonGroupMembers | goal-rec/create_template.py:41-43 | the type facts cover exactly the objects that are not group names |
| CreateTemplate.ConvertRelationsString | goal-rec/create_template.py:27-52 | the init block: type facts, then the sorted relations, then `)` |
| CreateTemplate.InitObjectsAreLines | goal-rec/create_template.py:41-43 | one line `  (obj obj1)` per non-group object, in order |
| CreateTemplate.RowLinesAreLines | goal-rec/create_template.py:44-50 | each pair or triple gives one relation line |
| CreateTemplate.SortedRowsSpec | goal-rec/create_template.py:44 | the relation lines are in tuple order and are a permutation of the relations |
| CreateTemplate.InitObjectsCount | goal-rec/create_template.py:41-43 | one type-fact line per non-group object |
| CreateTemplate.RowLinesCount | goal-rec/create_template.py:44-50 | one line per relation |
| CreateTemplate.InitBlockLines | goal-rec/create_template.py:40-51 | the init block has one line per non-group object, one per relation, and two delimiters |
| CreateTemplate.ObjectsBlockLines | goal-rec/create_template.py:63-66 | the objects block has one line per object and two delimiters |
| CreateTemplate.HeaderLinesCount | goal-rec/create_template.py:82-83 | the problem and domain lines are one line each |
| CreateTemplate.GoalBlockShape | goal-rec/create_template.py:86-88 | the goal placeholder adds three lines and ends in `)` |
| CreateTemplate.SaveTemplateShape | goal-rec/create_template.py:82-88 | the template ends in `)` without a final newline and has one line per header, object, type fact, relation and delimiter |
| Lis2Yolo.Clamp | object-recognition/lis2yolo.py:47-50 | negative `xmin` and `ymin` become 0 before the far corner is computed, so width and height are kept |
| Lis2Yolo.ParseIntOfInt | object-recognition/lis2yolo.py:55 | `int()` reads `'%d' % n` back as `n` |
| Lis2Yolo.BoxRoundTrip | object-recognition/lis2yolo.py:55 | a box's five numbers read back as the box |
| Lis2Yolo.BoxesSnoc | object-recognition/lis2yolo.py:55 | appending a position to `positions` appends its box to the boxes the text holds |
| Lis2Yolo.Register | object-recognition/lis2yolo.py:52-54 | a new label gets `len(dclasses)`; known labels keep their ids |
| Lis2Yolo.RegisterDense | object-recognition/lis2yolo.py:52-53 | registering keeps the ids `0 .. n-1`, one label each |
| Lis2Yolo.StepRecord | object-recognition/lis2yolo.py:39-55 | a record flushes the frame under the previous path when the index changes (not on line 1), and adds its clamped box with its label's id |
| Lis2Yolo.StepClasses | object-recognition/lis2yolo.py:39-54 | a line registers its label exactly when it is a record that goes through |
| Lis2Yolo.StepGrows | object-recognition/lis2yolo.py:36-55 | a line keeps every id given out, only appends output, and keeps ids dense |
| Lis2Yolo.ScanStops | object-recognition/lis2yolo.py:36-55 | an exception ends the loop |
| Lis2Yolo.ScanGrows | object-recognition/lis2yolo.py:36-55 | the loop keeps ids, only appends output, and keeps ids dense |
| Lis2Yolo.ScanWellFormed | object-recognition/lis2yolo.py:36-55 | between records, `positions` holds the current frame's boxes, at least one once `path` is bound |
| Lis2Yolo.AnnotateGrows | object-recognition/lis2yolo.py:26-57 | `change_annotation` only adds to the dictionary and the output, even when it raises |
| Lis2Yolo.AnnotateLastLine | object-recognition/lis2yolo.py:56 | the last frame is always written, with at least one box; `NameError` exactly when no record bound `path` |
| Lis2Yolo.ScanIds | object-recognition/lis2yolo.py:36-54 | the loop registers the records' labels in line order |
| Lis2Yolo.AnnotateIds | object-recognition/lis2yolo.py:26-57 | a file that converts registers its labels one after the other |
| Lis2Yolo.FirstSeenIds | object-recognition/lis2yolo.py:52-53 | from an empty dictionary, each label's id is the number of distinct labels met before its first occurrence |
| Lis2Yolo.SkippedLine | object-recognition/lis2yolo.py:39 | a non-record line after line 1 can be removed without changing anything |
| Lis2Yolo.NoRecords | object-recognition/lis2yolo.py:39-56 | a file without records changes nothing and raises `NameError` |
| Lis2Yolo.NoHeader | object-recognition/lis2yolo.py:41-42 | a first record at line 0 whose frame is not 0 raises `NameError` |
| Lis2Yolo.FirstFrameSplit | object-recognition/lis2yolo.py:41-44 | a two-box first frame read on line 1 is written as two lines, the first holding only its first box |
| Lis2Yolo.FrameReturns | object-recognition/lis2yolo.py:39-44 | a frame that returns after another frame is written again: frames 1, 2, 1 give three lines, the first holding frame 1's box |
| Lis2Yolo.ConvertStops | object-recognition/lis2yolo.py:72-77 | an exception in one file ends `main` |
| Lis2Yolo.ConvertGrows | object-recognition/lis2yolo.py:72-77 | over all files, ids are kept, output is only appended, and ids stay dense |
| Lis2Yolo.ConvertIds | object-recognition/lis2yolo.py:65-77 | the dictionary carries over between files: they number their labels as one long sequence would |
| Lis2Yolo.MainIds | object-recognition/lis2yolo.py:60-78 | the dictionary holds exactly the dataset's labels, with dense ids in first-seen order |
| Lis2Yolo.ClassListing | object-recognition/lis2yolo.py:78 | `sorted(dclasses.items(), key=…)` lists every label once, in ascending id order |
| Lis2Yolo.ClassFileById | object-recognition/lis2yolo.py:78-80 | with dense ids, line `k` of the classes file names the class with id `k` |
| Lis2Yolo.Converter.constructor | object-recognition/lis2yolo.py:65 | `dclasses` starts empty and nothing is written |
| Lis2Yolo.Converter.ChangeAnnotation | object-recognition/lis2yolo.py:26-57 | the loop over the lines, on the objects, is `change_annotation` |
| Lis2Yolo.Converter.Convert | object-recognition/lis2yolo.py:72-77 | the loop over the annotation files |

## Left out

- Process, file and directory I/O are not modelled. This covers `Popen`, `open`, `flush`, `os.fsync`, `os.walk`, the observation file name, `logging` and `argparse`. The recogniser's output is a parameter, and so are the files' lines and the order of the walk.
- The `filehandler` module (`PDDLInit`, `DecompressedFile`, `FolderHandler`, `filename`) is not part of this model. Frames, groups, goals and file stems are parameters.
- `generate_goal_states`, `goal_state_from_file`, `generate_template`, `run_multiple` and the `__main__` blocks only wire `filehandler` to the modelled functions. They are not modelled.
- `goal_state_from_file` calls `save_goal(rels)` without its file name, which is a `TypeError` whenever `output` is given. That call is not modelled.
- `save_scores` needs pandas (`DataFrame`, `to_csv`). Only the dictionary it receives is modelled (`RunFile`'s `scores`).
- `show_goals` is not called by the scripts, and only logs. It is not modelled.
- Python's set and dictionary order is left open. For `list(set(rel))`, `GoalStates.AddRelations` claims only that some listing of the distinct names was stored. `dobj` is modelled in insertion order, and an order that differs only permutes the prefix of an encoding.
- Scores.ParseFloat: keeps a number as the text `float()` read. It does not model floating-point values, or the `ValueError` of `float()` on text that is no number.
- Lis2Yolo.Converter.ChangeAnnotation: takes the lines already stripped and split at tabs, and takes `ast.literal_eval` as a parameter that yields four integers or a `ValueError`. Floats and other tuple shapes are not modelled, and `'%d'` of a float would truncate.
- `lis2yolo.py` is Python 2 code (`dict.has_key`). `has_key` is modelled as the membership test. `isdigit` and string comparison are modelled on ASCII only.
- The text model has no Unicode. The `repr` of every byte value is modelled (the choice of quote, `\\`, `\t`, `\n`, `\r` and `\xhh`); only `strip`, `lower` and `isdigit` are limited to ASCII.
- `add_goals` appends a score only to the goals a candidate line names, so a goal's list need not have one entry per frame.
