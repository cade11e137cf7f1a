# AndroidAi dog-breed detection, modelled in Dafny

This project models the computational core of two Android apps, written in Java, in the AndroidAi repository.

**DogBreedDetector.** `DogBreedClassifier` turns a YOLOv4-tiny output into detection records:
- it decodes each grid row and keeps the best class above the object threshold;
- it keeps only the dog classes (14-23 and 77);
- it runs per-class non-maximum suppression with an IoU threshold of 0.25;
- it runs a MobileNet breed classifier on every kept box and fans the box out once per breed score above the threshold, naming the breed through two label tables read from asset files.

`MultiBoxTracker` carries boxes from one frame to the next:
- it drops boxes smaller than 16 pixels;
- it reuses the first previous entry whose centre is within 50 pixels, raising that entry's confidence and renaming it;
- otherwise it makes a new entry coloured by its position;
- it stops at 15 entries.

**CameraTest.** `ClassesParser` builds the same two label tables without the dog whitelist. `MainActivity` does four things:
- it filters dog and cat boxes;
- it collects and sorts the breed names of the boxes;
- it rescales the boxes to the camera bitmap in place;
- it computes the camera display orientation and unpacks ARGB pixels into the breed network's input.

## Modules

| file | module | what it holds |
|---|---|---|
| wrappers.dfy | Wrappers | `Option` |
| seqs.dfy | Seqs | `Filter` (every "for each, if, add" loop), subsequences, `RemoveAt` |
| java_strings.dfy | JavaStrings | `String.trim`, `String.split` (trailing empty fields dropped), decimal text of an int, `compareTo` order and a sort |
| box_geometry.dfy | BoxGeometry | `RectF`, `overlap`, `box_intersection`, `box_union`, `box_iou` |
| recognitions.dfy | Recognitions | the detector's record class (the breed name is set in place) |
| dog_breed_decode.dfy | DogBreedDecode | `getDetectionsForTiny` |
| dog_breed_nms.dfy | DogBreedNms | `nms` |
| label_tables.dfy | LabelTables | the two tables read from the asset files, shared by both apps |
| dog_breed_classifier.dfy | DogBreedClassifier | the class whitelist, table loading, `getOnlyDogClasses`, `getDogBreedBoxes`, `recognizeImage` |
| multi_box_tracker.dfy | MultiBoxTracking | `MultiBoxTracker.processResults` and its helpers |
| classes_parser.dfy | ClassesParsing | CameraTest's `ClassesParser` |
| camera_main.dfy | CameraMain | CameraTest's `MainActivity` helpers |

Where the source reads a file, it is given the file's lines. Where it runs a network, it is given the network's output. Where it asks the camera or the display, it is given the answer.

## Model

| member | source | states |
|---|---|---|
| BoxGeometry.Overlap | DogBreedDetector/app/src/main/java/com/dogbreed/detector/DogBreedClassifier.java:329-339 | the overlap of two intervals given by centre and width is at most either width |
| BoxGeometry.XOverlap | DogBreedDetector/app/src/main/java/com/dogbreed/detector/DogBreedClassifier.java:311-312 | the horizontal overlap is the smaller right edge minus the larger left edge |
| BoxGeometry.YOverlap | DogBreedDetector/app/src/main/java/com/dogbreed/detector/DogBreedClassifier.java:313-314 | the vertical overlap is the smaller bottom edge minus the larger top edge |
| BoxGeometry.BoxIntersection | DogBreedDetector/app/src/main/java/com/dogbreed/detector/DogBreedClassifier.java:309-319 | never negative; 0 when the boxes do not overlap on an axis; otherwise the product of the two overlaps |
| BoxGeometry.OverlapSymmetric | DogBreedDetector/app/src/main/java/com/dogbreed/detector/DogBreedClassifier.java:329-339 | overlap does not depend on the order of its two intervals |
| BoxGeometry.IntersectionSymmetric | DogBreedDetector/app/src/main/java/com/dogbreed/detector/DogBreedClassifier.java:309-319 | box_intersection is symmetric |
| BoxGeometry.IouSymmetric | DogBreedDetector/app/src/main/java/com/dogbreed/detector/DogBreedClassifier.java:305-307 | box_iou and the suppression test against 0.25 are symmetric |
| BoxGeometry.IouSelf | DogBreedDetector/app/src/main/java/com/dogbreed/detector/DogBreedClassifier.java:305-327 | a box with positive width and height has IoU 1 with itself |
| BoxGeometry.IouDisjoint | DogBreedDetector/app/src/main/java/com/dogbreed/detector/DogBreedClassifier.java:305-327 | separated boxes have intersection 0, so IoU 0, or no IoU when the union is 0 (the float quotient is NaN) |
| BoxGeometry.IouBounds | DogBreedDetector/app/src/main/java/com/dogbreed/detector/DogBreedClassifier.java:305-327 | for two non-degenerate boxes the IoU exists and lies in [0, 1] |
| BoxGeometry.IntersectionAtMostArea | DogBreedDetector/app/src/main/java/com/dogbreed/detector/DogBreedClassifier.java:309-319 | the intersection is at most the area of either box |
| Recognitions.Recognition.SetBreedName | DogBreedDetector/app/src/main/java/com/dogbreed/detector/DogBreedClassifier.java:466 | setBreedName replaces the breed name |
| DogBreedDecode.ScanMax | DogBreedDetector/app/src/main/java/com/dogbreed/detector/DogBreedClassifier.java:391-406 | the argmax that starts from class -1 and score 0: the result is the first strictly largest positive score, or -1 with 0 when no score is positive |
| DogBreedDecode.ArgMaxClass | DogBreedDetector/app/src/main/java/com/dogbreed/detector/DogBreedClassifier.java:391-406 | the loop computes ScanMax over all scores |
| DogBreedDecode.DecodeBox | DogBreedDetector/app/src/main/java/com/dogbreed/detector/DogBreedClassifier.java:411-419 | the centre/size box is clamped to [0, width-1] x [0, height-1]; an edge that is already inside is kept exactly |
| DogBreedDecode.DecodeRowOutcome | DogBreedDetector/app/src/main/java/com/dogbreed/detector/DogBreedClassifier.java:389-422 | a row emits a record exactly when some score is positive and above the threshold; it throws (labels.get(-1)) exactly when the threshold is negative and no score is positive; an emitted record has the row's best class, label and score |
| DogBreedDecode.Decode | DogBreedDetector/app/src/main/java/com/dogbreed/detector/DogBreedClassifier.java:389-423 | the row loop gives at most one record per row |
| DogBreedDecode.CollectStep | DogBreedDetector/app/src/main/java/com/dogbreed/detector/DogBreedClassifier.java:389-423 | one more row outcome: a throw ends the loop with no result, a skip adds nothing, a record is appended |
| DogBreedDecode.CollectFailsExactly | DogBreedDetector/app/src/main/java/com/dogbreed/detector/DogBreedClassifier.java:389-423 | the loop has no result exactly when some row throws |
| DogBreedDecode.CollectSound | DogBreedDetector/app/src/main/java/com/dogbreed/detector/DogBreedClassifier.java:389-423 | every record is the one its row emits |
| DogBreedDecode.CollectRowsIncrease | DogBreedDetector/app/src/main/java/com/dogbreed/detector/DogBreedClassifier.java:389-423 | records come in strictly increasing row order |
| DogBreedDecode.CollectComplete | DogBreedDetector/app/src/main/java/com/dogbreed/detector/DogBreedClassifier.java:389-423 | every emitted record is in the result |
| DogBreedDecode.CollectAllSkipped | DogBreedDetector/app/src/main/java/com/dogbreed/detector/DogBreedClassifier.java:389-425 | when every row is skipped, the result is the empty list |
| DogBreedDecode.DecodeFailsExactly | DogBreedDetector/app/src/main/java/com/dogbreed/detector/DogBreedClassifier.java:389-423 | decoding fails (labels.get(-1) throws) exactly when some row throws |
| DogBreedDecode.DecodeNext | DogBreedDetector/app/src/main/java/com/dogbreed/detector/DogBreedClassifier.java:409-422 | one more row: a throw ends decoding, a skip adds nothing, an emitting row appends its record |
| DogBreedDecode.DecodeStep | DogBreedDetector/app/src/main/java/com/dogbreed/detector/DogBreedClassifier.java:409-422 | one more row appends its record or nothing |
| DogBreedDecode.DecodeSound | DogBreedDetector/app/src/main/java/com/dogbreed/detector/DogBreedClassifier.java:389-423 | every record comes from an emitting row |
| DogBreedDecode.DecodeRowsIncrease | DogBreedDetector/app/src/main/java/com/dogbreed/detector/DogBreedClassifier.java:389-423 | records appear in row order, at most one per row |
| DogBreedDecode.DecodeComplete | DogBreedDetector/app/src/main/java/com/dogbreed/detector/DogBreedClassifier.java:389-423 | every emitting row has its record |
| DogBreedDecode.DecodeAllSkipped | DogBreedDetector/app/src/main/java/com/dogbreed/detector/DogBreedClassifier.java:389-425 | when every row is skipped, the result is the empty list |
| DogBreedDecode.ZeroScoresDecodeToNothing | DogBreedDetector/app/src/main/java/com/dogbreed/detector/DogBreedClassifier.java:399-409 | all-zero scores with a non-negative threshold give no detections |
| DogBreedDecode.GetDetectionsForTiny | DogBreedDetector/app/src/main/java/com/dogbreed/detector/DogBreedClassifier.java:368-426 | the loop fails exactly when Decode does; otherwise it returns one freshly made, distinct record per decoded row, carrying the row number as decimal text, the label, the score, the box and the class |
| JavaStrings.Trim | DogBreedDetector/app/src/main/java/com/dogbreed/detector/DogBreedClassifier.java:156 | String.trim: the result is a slice of the input with only characters up to U+0020 cut from either end, and none left at its ends |
| JavaStrings.TrimIdempotent | DogBreedDetector/app/src/main/java/com/dogbreed/detector/DogBreedClassifier.java:176 | trimming twice is trimming once |
| JavaStrings.SplitAll | DogBreedDetector/app/src/main/java/com/dogbreed/detector/DogBreedClassifier.java:176 | splitting on one character gives at least one field, and no field holds the separator |
| JavaStrings.JoinSplitAll | DogBreedDetector/app/src/main/java/com/dogbreed/detector/DogBreedClassifier.java:176 | joining the fields back with the separator gives the original line |
| JavaStrings.DropTrailingEmpty | DogBreedDetector/app/src/main/java/com/dogbreed/detector/DogBreedClassifier.java:176 | String.split drops exactly the trailing empty fields |
| JavaStrings.TrimmedTabSplit | CameraTest/app/src/main/java/com/camera/cameratest/ClassesParser.java:46-47 | a trimmed line splits on tab into two or more fields exactly when it holds a tab |
| JavaStrings.NatToDecimal | DogBreedDetector/app/src/main/java/com/dogbreed/detector/DogBreedClassifier.java:421 | `"" + i` is a non-empty string of digits |
| JavaStrings.DecimalRoundTrip | DogBreedDetector/app/src/main/java/com/dogbreed/detector/DogBreedClassifier.java:421 | reading the digits back gives the row number |
| JavaStrings.DecimalInjective | DogBreedDetector/app/src/main/java/com/dogbreed/detector/DogBreedClassifier.java:421 | different rows get different ids |
| JavaStrings.CharUnits | CameraTest/app/src/main/java/com/camera/cameratest/MainActivity.java:242 | the UTF-16 code units of a character: itself below U+10000, otherwise a high surrogate followed by a low surrogate |
| JavaStrings.CharUnitsInjective | CameraTest/app/src/main/java/com/camera/cameratest/MainActivity.java:242 | different characters have different code units |
| JavaStrings.Utf16Injective | CameraTest/app/src/main/java/com/camera/cameratest/MainActivity.java:242 | different strings have different UTF-16 encodings |
| JavaStrings.UnitsLessEqTotal | CameraTest/app/src/main/java/com/camera/cameratest/MainActivity.java:242 | the lexicographic order on code units is total |
| JavaStrings.UnitsLessEqTransitive | CameraTest/app/src/main/java/com/camera/cameratest/MainActivity.java:242 | it is transitive |
| JavaStrings.UnitsLessEqAntisymmetric | CameraTest/app/src/main/java/com/camera/cameratest/MainActivity.java:242 | it is antisymmetric |
| JavaStrings.CompareToByCodeUnits | CameraTest/app/src/main/java/com/camera/cameratest/MainActivity.java:242 | compareTo orders by UTF-16 code units, not code points: U+1F600 sorts before U+FF01 although its code point is larger |
| JavaStrings.LessEqTotal | CameraTest/app/src/main/java/com/camera/cameratest/MainActivity.java:242 | String.compareTo order (UTF-16 code units, a proper prefix first): any two strings are comparable |
| JavaStrings.LessEqTransitive | CameraTest/app/src/main/java/com/camera/cameratest/MainActivity.java:242 | the order is transitive |
| JavaStrings.LessEqAntisymmetric | CameraTest/app/src/main/java/com/camera/cameratest/MainActivity.java:242 | the order is antisymmetric |
| JavaStrings.Insert | CameraTest/app/src/main/java/com/camera/cameratest/MainActivity.java:242 | inserting into a sorted list keeps it sorted and adds exactly the one element |
| JavaStrings.SortStrings | CameraTest/app/src/main/java/com/camera/cameratest/MainActivity.java:242 | Collections.sort on strings: the result is sorted by compareTo's UTF-16 order and a permutation of the input |
| Seqs.FilterMembers | DogBreedDetector/app/src/main/java/com/dogbreed/detector/DogBreedClassifier.java:483-490 | a filter loop keeps exactly the elements that pass the test |
| Seqs.FilterIsSubsequence | DogBreedDetector/app/src/main/java/com/dogbreed/detector/DogBreedClassifier.java:483-490 | a filter loop keeps the input order |
| DogBreedNms.FirstMaxIndex | DogBreedDetector/app/src/main/java/com/dogbreed/detector/DogBreedClassifier.java:282-284 | the head of the queue has the highest confidence of the pool |
| DogBreedNms.NmsRoundFacts | DogBreedDetector/app/src/main/java/com/dogbreed/detector/DogBreedClassifier.java:279-297 | one round keeps a most confident box and requeues exactly the other boxes whose IoU with it is below the threshold; the pool shrinks |
| DogBreedNms.NmsClassUnfold | DogBreedDetector/app/src/main/java/com/dogbreed/detector/DogBreedClassifier.java:279-297 | the per-class result is the kept box followed by the result on the requeued boxes |
| DogBreedNms.CollectClass | DogBreedDetector/app/src/main/java/com/dogbreed/detector/DogBreedClassifier.java:270-276 | the queue holds the boxes of class k, in list order |
| DogBreedNms.KeepSurvivors | DogBreedDetector/app/src/main/java/com/dogbreed/detector/DogBreedClassifier.java:288-296 | the inner loop requeues exactly the boxes whose IoU with the kept box is below the threshold |
| DogBreedNms.SuppressClass | DogBreedDetector/app/src/main/java/com/dogbreed/detector/DogBreedClassifier.java:279-297 | the while loop computes NmsClass |
| DogBreedNms.Nms | DogBreedDetector/app/src/main/java/com/dogbreed/detector/DogBreedClassifier.java:250-301 | nms computes NmsUpTo over all labels with the 0.25 IoU test |
| DogBreedNms.NmsClassMultiset | DogBreedDetector/app/src/main/java/com/dogbreed/detector/DogBreedClassifier.java:279-297 | per class, every output box is an input box, and none is repeated |
| DogBreedNms.NmsClassMembers | DogBreedDetector/app/src/main/java/com/dogbreed/detector/DogBreedClassifier.java:279-297 | per class, output boxes come from the pool |
| DogBreedNms.NmsClassOrdered | DogBreedDetector/app/src/main/java/com/dogbreed/detector/DogBreedClassifier.java:279-297 | per class, the kept boxes come in non-increasing confidence |
| DogBreedNms.NmsClassSeparated | DogBreedDetector/app/src/main/java/com/dogbreed/detector/DogBreedClassifier.java:288-296 | per class, every two kept boxes pass the overlap test |
| DogBreedNms.NmsClassCovers | DogBreedDetector/app/src/main/java/com/dogbreed/detector/DogBreedClassifier.java:279-297 | per class, every dropped box fails the overlap test against some kept box |
| DogBreedNms.NmsUpToMultiset | DogBreedDetector/app/src/main/java/com/dogbreed/detector/DogBreedClassifier.java:254-298 | the output is a sub-multiset of the boxes of classes below k |
| DogBreedNms.NmsUpToMembers | DogBreedDetector/app/src/main/java/com/dogbreed/detector/DogBreedClassifier.java:254-298 | every output box is an input box of a class in [0, k) |
| DogBreedNms.NmsUpToOrdered | DogBreedDetector/app/src/main/java/com/dogbreed/detector/DogBreedClassifier.java:254-298 | the output is grouped by increasing class, and within a class by confidence, with the kept boxes apart |
| DogBreedNms.NmsUpToCovers | DogBreedDetector/app/src/main/java/com/dogbreed/detector/DogBreedClassifier.java:254-298 | every input box of a class below k is kept, or is suppressed by a kept box of its class |
| DogBreedNms.NmsProperties | DogBreedDetector/app/src/main/java/com/dogbreed/detector/DogBreedClassifier.java:250-303 | nms over all labels: the output is a sub-multiset of the input, of known classes, grouped and ordered, pairwise below 0.25 IoU within a class, and covers every input box |
| LabelTables.CodesTable | DogBreedDetector/app/src/main/java/com/dogbreed/detector/DogBreedClassifier.java:207-214 | codes.txt: the keys are exactly the line numbers 1..n, and key N holds line N untrimmed |
| LabelTables.Entry | DogBreedDetector/app/src/main/java/com/dogbreed/detector/DogBreedClassifier.java:176-180 | a names line gives the pair of field 0 and field 1 exactly when it qualifies (two or more tab fields, and the code is whitelisted when there is a whitelist) |
| LabelTables.Entries | DogBreedDetector/app/src/main/java/com/dogbreed/detector/DogBreedClassifier.java:174-181 | one entry per line, in file order |
| LabelTables.NamesTableStep | DogBreedDetector/app/src/main/java/com/dogbreed/detector/DogBreedClassifier.java:174-181 | one more line adds its pair (a later put overwrites) or nothing |
| LabelTables.PutAllDomain | DogBreedDetector/app/src/main/java/com/dogbreed/detector/DogBreedClassifier.java:179 | a code is a key exactly when some entry put it |
| LabelTables.PutAllLastWins | DogBreedDetector/app/src/main/java/com/dogbreed/detector/DogBreedClassifier.java:179 | the value of a key is the one from its last put |
| LabelTables.QualifiesIffTab | CameraTest/app/src/main/java/com/camera/cameratest/ClassesParser.java:46-47 | a line qualifies exactly when its trimmed text holds a tab (and, with a whitelist, its code is listed) |
| LabelTables.NamesTableDomain | DogBreedDetector/app/src/main/java/com/dogbreed/detector/DogBreedClassifier.java:174-181 | a code has a name exactly when some qualifying line carries it |
| LabelTables.NamesTableLastWins | DogBreedDetector/app/src/main/java/com/dogbreed/detector/DogBreedClassifier.java:174-181 | the name is that of the last qualifying line with the code |
| LabelTables.WhitelistRestricts | DogBreedDetector/app/src/main/java/com/dogbreed/detector/DogBreedClassifier.java:177 | the whitelisted table is the unrestricted table cut down to the listed codes |
| LabelTables.LookupFromTables | DogBreedDetector/app/src/main/java/com/dogbreed/detector/DogBreedClassifier.java:463-464 | an index has a name exactly when it is a line number of codes.txt whose code has a name; index 0 and any index past the file have none |
| LabelTables.UnionUpdate | DogBreedDetector/app/src/main/java/com/dogbreed/detector/DogBreedClassifier.java:179 | a put into a table that already holds entries is a put into the union |
| DogBreedClassifier.TrimmedLinesElements | DogBreedDetector/app/src/main/java/com/dogbreed/detector/DogBreedClassifier.java:154-157 | one trimmed code per line of dog_codes.txt |
| DogBreedClassifier.Repeat | DogBreedDetector/app/src/main/java/com/dogbreed/detector/DogBreedClassifier.java:459-469 | n copies of the same record |
| DogBreedClassifier.OnlyDogClassesExactly | DogBreedDetector/app/src/main/java/com/dogbreed/detector/DogBreedClassifier.java:480-493 | getOnlyDogClasses keeps, in order, exactly the records of a dog class |
| DogBreedClassifier.HitsExactly | DogBreedDetector/app/src/main/java/com/dogbreed/detector/DogBreedClassifier.java:459-462 | the hits are exactly the indices whose score is above the threshold, in increasing order |
| DogBreedClassifier.LastHitIsLast | DogBreedDetector/app/src/main/java/com/dogbreed/detector/DogBreedClassifier.java:459-469 | the last hit is the last index above the threshold; with no hit, no score is above it |
| DogBreedClassifier.FanOutSound | DogBreedDetector/app/src/main/java/com/dogbreed/detector/DogBreedClassifier.java:441-478 | every output record is an input box with at least one breed score above the threshold |
| DogBreedClassifier.FanOutComplete | DogBreedDetector/app/src/main/java/com/dogbreed/detector/DogBreedClassifier.java:441-478 | every input box with a breed score above the threshold is in the output |
| DogBreedClassifier.FanOutMembers | DogBreedDetector/app/src/main/java/com/dogbreed/detector/DogBreedClassifier.java:441-478 | the output holds exactly the boxes with at least one breed score above the threshold |
| DogBreedClassifier.FanOutCount | DogBreedDetector/app/src/main/java/com/dogbreed/detector/DogBreedClassifier.java:441-478 | each box appears once per breed score above the threshold |
| DogBreedClassifier.FanOutAbsent | DogBreedDetector/app/src/main/java/com/dogbreed/detector/DogBreedClassifier.java:441-478 | records not among the inputs never appear |
| DogBreedClassifier.RepeatCount | DogBreedDetector/app/src/main/java/com/dogbreed/detector/DogBreedClassifier.java:465-467 | the copies are all of the one record |
| DogBreedClassifier.BreedOfDistinct | DogBreedDetector/app/src/main/java/com/dogbreed/detector/DogBreedClassifier.java:459-469 | every copy is the same object, so each box ends with the breed name of its last hit; a box with no hit keeps its old name |
| DogBreedClassifier.BreedUntouched | DogBreedDetector/app/src/main/java/com/dogbreed/detector/DogBreedClassifier.java:441-478 | records outside the input keep their breed name |
| DogBreedClassifier.FillPossibleClassesList | DogBreedDetector/app/src/main/java/com/dogbreed/detector/DogBreedClassifier.java:129-138 | the list is POSSIBLE_DOG_CLASSES_ARRAY, and a class is in it exactly when it is a dog class |
| DogBreedClassifier.GetDogCodesFromFile | DogBreedDetector/app/src/main/java/com/dogbreed/detector/DogBreedClassifier.java:146-164 | the codes are the trimmed lines of dog_codes.txt |
| DogBreedClassifier.Classifier.Create | DogBreedDetector/app/src/main/java/com/dogbreed/detector/DogBreedClassifier.java:59-127 | create stores the label lines, the dog classes and the two tables built from the files |
| DogBreedClassifier.Classifier.InitializeMap | DogBreedDetector/app/src/main/java/com/dogbreed/detector/DogBreedClassifier.java:140-144 | both tables are filled from their files |
| DogBreedClassifier.Classifier.ReadCodesFile | DogBreedDetector/app/src/main/java/com/dogbreed/detector/DogBreedClassifier.java:199-230 | indexToCode gains the codes table; codesToHuman is unchanged |
| DogBreedClassifier.Classifier.FillCodesWithValues | DogBreedDetector/app/src/main/java/com/dogbreed/detector/DogBreedClassifier.java:166-197 | codesToHuman gains the whitelisted names table; indexToCode is unchanged |
| DogBreedClassifier.Classifier.GetOnlyDogClasses | DogBreedDetector/app/src/main/java/com/dogbreed/detector/DogBreedClassifier.java:480-493 | the loop filters by class membership in the whitelist |
| DogBreedClassifier.Classifier.LabelBox | DogBreedDetector/app/src/main/java/com/dogbreed/detector/DogBreedClassifier.java:457-469 | one box adds itself once per hit and takes the breed name of its last hit |
| DogBreedClassifier.Classifier.GetDogBreedBoxes | DogBreedDetector/app/src/main/java/com/dogbreed/detector/DogBreedClassifier.java:441-478 | the output is the fan-out of the boxes, and every input box ends with the breed name given by BreedAfter |
| DogBreedClassifier.CropScores | DogBreedDetector/app/src/main/java/com/dogbreed/detector/DogBreedClassifier.java:443-454 | one breed-score result per box, each the one of that box's crop (None when the breed network throws) |
| DogBreedClassifier.Survivors | DogBreedDetector/app/src/main/java/com/dogbreed/detector/DogBreedClassifier.java:434-435 | the boxes that remain after the whitelist and nms are input records of dog classes with a known label, each with a box |
| DogBreedClassifier.Classifier.RecognizeImage | DogBreedDetector/app/src/main/java/com/dogbreed/detector/DogBreedClassifier.java:428-439 | gives no result exactly when Decode has none, that is when a row makes labels.get(-1) throw; otherwise it makes one new record per decoded row carrying that row's fields, and returns the fan-out of their survivors, with every record's breed name given by BreedAfter; every result is a new record with a box and a dog class of a known label |
| DogBreedClassifier.Classifier.BreedsOfDogs | DogBreedDetector/app/src/main/java/com/dogbreed/detector/DogBreedClassifier.java:434-436 | the result is the fan-out of Survivors under the boxes' breed scores, every input record ends with the breed name given by BreedAfter, and only input records of dog classes with a box are returned |
| MultiBoxTracking.RectsToTrack | DogBreedDetector/app/src/main/java/com/dogbreed/detector/MultiBoxTracker.java:136-152 | the first loop keeps the records that have a box at least 16 wide and 16 high |
| MultiBoxTracking.RectsToTrackExactly | DogBreedDetector/app/src/main/java/com/dogbreed/detector/MultiBoxTracker.java:136-152 | kept records are exactly the trackable ones, in order, and all have boxes |
| MultiBoxTracking.FirstSimilar | DogBreedDetector/app/src/main/java/com/dogbreed/detector/MultiBoxTracker.java:220-240 | the match index is -1 or a position in the old list |
| MultiBoxTracking.FirstSimilarExactly | DogBreedDetector/app/src/main/java/com/dogbreed/detector/MultiBoxTracker.java:226-239 | -1 exactly when no old centre is within 50 on both axes; otherwise the first one that is |
| MultiBoxTracking.LocationsExactly | DogBreedDetector/app/src/main/java/com/dogbreed/detector/MultiBoxTracker.java:228-230 | the old locations are read through the shared entries |
| MultiBoxTracking.Capped | DogBreedDetector/app/src/main/java/com/dogbreed/detector/MultiBoxTracker.java:183-186 | the loop stops after min(n, 15) entries |
| MultiBoxTracking.Detections | DogBreedDetector/app/src/main/java/com/dogbreed/detector/MultiBoxTracker.java:151 | each record's box, confidence, title and breed name, in order |
| MultiBoxTracking.UpdateExistingTrackedEntry | DogBreedDetector/app/src/main/java/com/dogbreed/detector/MultiBoxTracker.java:190-201 | the matched entry keeps its location and colour, takes the larger confidence, and takes the breed name when there is one |
| MultiBoxTracking.CreateNewTrackedEntry | DogBreedDetector/app/src/main/java/com/dogbreed/detector/MultiBoxTracker.java:203-218 | a new entry has the record's box and confidence, and its breed name, or else its title |
| MultiBoxTracking.GetSimilarBoxByLocation | DogBreedDetector/app/src/main/java/com/dogbreed/detector/MultiBoxTracker.java:220-240 | the loop returns FirstSimilar of the record's box among the old entries' locations |
| MultiBoxTracking.Step | DogBreedDetector/app/src/main/java/com/dogbreed/detector/MultiBoxTracker.java:167-181 | one detection never removes an entry, and refers to an entry in the store |
| MultiBoxTracking.Track | DogBreedDetector/app/src/main/java/com/dogbreed/detector/MultiBoxTracker.java:165-187 | one tracked entry per detection, all in the store |
| MultiBoxTracking.Assignments | DogBreedDetector/app/src/main/java/com/dogbreed/detector/MultiBoxTracker.java:169 | one match index per detection, each -1 or an old position |
| MultiBoxTracking.AssignmentsExactly | DogBreedDetector/app/src/main/java/com/dogbreed/detector/MultiBoxTracker.java:169-170 | each detection's match is the first similar old location |
| MultiBoxTracking.ConfAfterIsMax | DogBreedDetector/app/src/main/java/com/dogbreed/detector/MultiBoxTracker.java:193 | an old entry ends with the largest of its confidence and the confidences of the detections that hit it |
| MultiBoxTracking.ConfAfterUnmatched | DogBreedDetector/app/src/main/java/com/dogbreed/detector/MultiBoxTracker.java:193 | an entry no detection hits keeps its confidence |
| MultiBoxTracking.TitleAfterKept | DogBreedDetector/app/src/main/java/com/dogbreed/detector/MultiBoxTracker.java:195-198 | an entry that no breed-named detection hits keeps its title |
| MultiBoxTracking.TitleAfterIsLast | DogBreedDetector/app/src/main/java/com/dogbreed/detector/MultiBoxTracker.java:195-198 | otherwise it takes the breed name of the last such detection |
| MultiBoxTracking.TrackStep | DogBreedDetector/app/src/main/java/com/dogbreed/detector/MultiBoxTracker.java:165-187 | one more detection is one more Step |
| MultiBoxTracking.TrackKeepsLocations | DogBreedDetector/app/src/main/java/com/dogbreed/detector/MultiBoxTracker.java:190-201 | tracking never moves an existing entry, so later matches see the snapshot's locations |
| MultiBoxTracking.StepOldEntry | DogBreedDetector/app/src/main/java/com/dogbreed/detector/MultiBoxTracker.java:169-174 | one step updates exactly the matched old entry |
| MultiBoxTracking.StepNewEntry | DogBreedDetector/app/src/main/java/com/dogbreed/detector/MultiBoxTracker.java:175-179 | an unmatched detection appends a new entry with the given colour |
| MultiBoxTracking.TrackMatchedAt | DogBreedDetector/app/src/main/java/com/dogbreed/detector/MultiBoxTracker.java:169-173 | a matched detection is tracked by the shared old entry |
| MultiBoxTracking.TrackNewEntryAt | DogBreedDetector/app/src/main/java/com/dogbreed/detector/MultiBoxTracker.java:175-181 | an unmatched detection i is tracked by a new entry coloured COLORS[i] |
| MultiBoxTracking.TrackEntries | DogBreedDetector/app/src/main/java/com/dogbreed/detector/MultiBoxTracker.java:165-187 | for every detection, either the shared old entry or a new coloured entry |
| MultiBoxTracking.TrackOldEntries | DogBreedDetector/app/src/main/java/com/dogbreed/detector/MultiBoxTracker.java:165-201 | every old entry ends with its location and colour, its maximal confidence and its last breed name |
| MultiBoxTracking.TrackOne | DogBreedDetector/app/src/main/java/com/dogbreed/detector/MultiBoxTracker.java:167-181 | one iteration of the loop is Step |
| MultiBoxTracking.TrackAll | DogBreedDetector/app/src/main/java/com/dogbreed/detector/MultiBoxTracker.java:165-187 | the loop tracks the first min(n, 15) detections |
| MultiBoxTracking.ProcessFrame | DogBreedDetector/app/src/main/java/com/dogbreed/detector/MultiBoxTracker.java:134-188 | processResults on values: filter, snapshot only when there are entries, clear, then track the capped detections against the snapshot |
| MultiBoxTracking.MultiBoxTracker.ProcessResults | DogBreedDetector/app/src/main/java/com/dogbreed/detector/MultiBoxTracker.java:134-188 | the same, on the tracker's fields |
| ClassesParsing.ClassesParser.constructor | CameraTest/app/src/main/java/com/camera/cameratest/ClassesParser.java:18-23 | the parser holds the codes table and the unrestricted names table |
| ClassesParsing.ClassesParser.GetValueByIndex | CameraTest/app/src/main/java/com/camera/cameratest/ClassesParser.java:25-29 | a name exactly when the index has a code and the code has a name; it is that name |
| ClassesParsing.ClassesParser.InitializeMap | CameraTest/app/src/main/java/com/camera/cameratest/ClassesParser.java:31-35 | both tables are filled from their files |
| ClassesParsing.ClassesParser.ReadCodesFile | CameraTest/app/src/main/java/com/camera/cameratest/ClassesParser.java:69-100 | indexToCode gains the codes table; codesToHuman is unchanged |
| ClassesParsing.ClassesParser.FillCodesWithValues | CameraTest/app/src/main/java/com/camera/cameratest/ClassesParser.java:37-67 | codesToHuman gains every line with two tab fields; indexToCode is unchanged |
| ClassesParsing.ParserLookup | CameraTest/app/src/main/java/com/camera/cameratest/ClassesParser.java:18-29 | index N has a name exactly when line N of codes.txt is the code of some qualifying line of code_human.txt; index 0 has none |
| ClassesParsing.ParserLookupLastWins | CameraTest/app/src/main/java/com/camera/cameratest/ClassesParser.java:44-51 | the name is the one on the last qualifying line with that code |
| CameraMain.Recognition.SetLocation | CameraTest/app/src/main/java/com/camera/cameratest/MainActivity.java:187 | setLocation replaces the box |
| CameraMain.OnlyDogsWithThreshold | CameraTest/app/src/main/java/com/camera/cameratest/MainActivity.java:193-205 | exactly the boxes above the threshold titled "dog" or "cat", in order |
| CameraMain.HitNames | CameraTest/app/src/main/java/com/camera/cameratest/MainActivity.java:223-238 | one looked-up name per score above the threshold |
| CameraMain.SortBreeds | CameraTest/app/src/main/java/com/camera/cameratest/MainActivity.java:242 | Collections.sort throws (None) exactly when the list has two or more entries and a null; otherwise the result is a permutation, sorted when it has two or more entries |
| CameraMain.WrapPermutation | CameraTest/app/src/main/java/com/camera/cameratest/MainActivity.java:242 | a permutation of the strings is a permutation of the list |
| CameraMain.DoRecognition | CameraTest/app/src/main/java/com/camera/cameratest/MainActivity.java:207-256 | the nested loops compute Accumulate over the boxes' breed scores, and the method returns its sort |
| CameraMain.BoxLabelsShape | CameraTest/app/src/main/java/com/camera/cameratest/MainActivity.java:223-238 | box ii changes no slot other than ii; the list grows by its hits, but not beyond slot ii once the list reaches it |
| CameraMain.JoinedAppend | CameraTest/app/src/main/java/com/camera/cameratest/MainActivity.java:229-230 | joining one more name appends a newline and that name |
| CameraMain.BoxLabelsJoinNext | CameraTest/app/src/main/java/com/camera/cameratest/MainActivity.java:225-231 | a further hit of a box that already has its slot joins its name onto that slot |
| CameraMain.BoxLabelsAtSlot | CameraTest/app/src/main/java/com/camera/cameratest/MainActivity.java:227-235 | when the list is exactly ii long, box ii's hits make one slot, its names joined by newlines |
| CameraMain.AccumulateLength | CameraTest/app/src/main/java/com/camera/cameratest/MainActivity.java:211-239 | at most one slot per box, and at most one per hit |
| CameraMain.AccumulateAllHitLength | CameraTest/app/src/main/java/com/camera/cameratest/MainActivity.java:211-239 | when every box has a hit, there is one slot per box |
| CameraMain.AccumulateAllHit | CameraTest/app/src/main/java/com/camera/cameratest/MainActivity.java:211-239 | when every box has a hit, slot b holds box b's names joined |
| CameraMain.AccumulateSplitsBox | CameraTest/app/src/main/java/com/camera/cameratest/MainActivity.java:227-235 | a box without hits lets the next box's names spread over two slots |
| CameraMain.PerBoxLabelsCorrect | CameraTest/app/src/main/java/com/camera/cameratest/MainActivity.java:211-239 | the corrected accumulation has one slot per labelled box, and agrees with the source when every box has a hit |
| CameraMain.ResizeBoxesToCameraSize | CameraTest/app/src/main/java/com/camera/cameratest/MainActivity.java:177-191 | returns the same list; each box is divided by current/to on each axis, once per occurrence in the list |
| CameraMain.RescaleIntoFrame | CameraTest/app/src/main/java/com/camera/cameratest/MainActivity.java:180-186 | a box inside the current frame maps to coordinates times to/current, inside the target frame |
| CameraMain.Degrees | CameraTest/app/src/main/java/com/camera/cameratest/MainActivity.java:294-308 | the switch gives 0, 90, 180 or 270, which is 90 times the rotation for the four Surface rotations |
| CameraMain.JavaRem360 | CameraTest/app/src/main/java/com/camera/cameratest/MainActivity.java:322 | Java's `%` by 360: the remainder takes the sign of the dividend and differs from it by a multiple of 360 |
| CameraMain.DisplayOrientationCorrect | CameraTest/app/src/main/java/com/camera/cameratest/MainActivity.java:292-324 | for a sensor orientation in [0, 360) the result is in [0, 360): back camera (orientation - degrees) mod 360, front camera -(orientation + degrees) mod 360, other facings 0 |
| CameraMain.Channel | CameraTest/app/src/main/java/com/camera/cameratest/MainActivity.java:344-349 | a shifted and masked channel is in [0, 255] |
| CameraMain.ChannelValue | CameraTest/app/src/main/java/com/camera/cameratest/MainActivity.java:344-349 | divided by 255 it is in [0, 1] |
| CameraMain.UnpackPixels | CameraTest/app/src/main/java/com/camera/cameratest/MainActivity.java:332-350 | a new array of 224*224*3 values; pixel i fills slots 3i, 3i+1 and 3i+2 with its red, green and blue channels |
| CameraMain.ChannelsRepack | CameraTest/app/src/main/java/com/camera/cameratest/MainActivity.java:344-349 | the three channels together are the pixel without its alpha byte, so no colour information is lost |

## Left out

- Asset reading is not modelled: file contents come in as lines. The table readers (ReadCodesFile, FillCodesWithValues and getDogCodesFromFile in DogBreedClassifier, and ClassesParser's two readers) catch and ignore IOExceptions, and the model treats a read that stops early like a shorter file. `create` behaves differently. Its label-file read (DogBreedClassifier.java:74-83) has no try, so an IOException there escapes, and `create` is declared `throws IOException` (line 63). A failure loading an interpreter (lines 85-122) is rethrown as a RuntimeException. Neither exception is modelled: Classifier.Create always succeeds.
- RecognizeImage: the crop in getDogBreedBoxes (DogBreedClassifier.java:447-450) comes before the try at line 454. The clamps at lines 416-419 are taken one edge at a time, so a box can end up with `(int)` width or height of zero or less. Two examples: xPos = 2000 and w = 10 give left 1995 and right 415 on a 416-wide bitmap; w = 0.5 gives a width of 0 after the cast. `createBitmap` then throws out of recognizeImage. A box lying outside the bitmap throws the same way, and also out of DoRecognition (MainActivity.java:217-218). These exceptions are not modelled: each box simply gets its breed-score result, and only the breed network's own exceptions (the catch at line 471) become a box with no scores.
- The TensorFlow Lite and TensorFlow interpreters are not modelled. Their outputs are inputs: the two detector tensors, the breed scores of each box, and the MobileNet output in DoRecognition.
- Bitmaps are not modelled: `convertBitmapToByteBuffer`, `createBitmap`, `createScaledBitmap` and `getPixels`. The crop of a box is not modelled either; each box simply gets its scores.
- `getObjThresh` and `MINIMUM_CONFIDENCE_SCORE` belong to DetectorActivity, which is not part of this model. The one threshold is a field of the frame. `getObjThresh` returns that same constant, so RecognizeImage uses it for the breed threshold too.
- Floats are modelled as reals: there is no rounding, and no NaN or Infinity. IoU with a zero union is modelled as None, the result of a NaN or infinite quotient, which fails the `< 0.25` test.
- ResizeBoxesToCameraSize: its `requires` excludes zero dimensions. The float division by zero it would otherwise do is not modelled.
- DisplayOrientationCorrect: it is stated only for a sensor orientation in [0, 360), the range Android documents. DisplayOrientation itself takes any int.
- OnlyDogsWithThreshold: Java's `==` on strings compares references. It is modelled as value equality, which is what it does when the titles are interned literals.
- The (int) casts on box edges in getDogBreedBoxes and DoRecognition only feed the bitmap crop, which is not modelled.
- Concurrency is not modelled: camera callbacks, AsyncTask, the preview lock and the static tables that both apps share.
- Drawing is not modelled: `MultiBoxTracker.draw`, `setFrameConfiguration`, DrawView, text rendering and the logger.
- DogBreedDetector's MainActivity is an empty activity and is not modelled. CameraTest's camera setup is not modelled either: `onCreate`, preview sizing, the surface callbacks and `setPreviewSize`.
- DogBreedClassifier's two tables are static HashMaps. They are modelled as fields of the classifier, where every shown use reaches them.
- Both the tracker's list of entries and its snapshot hold the same mutable TrackedRecognition objects. This is modelled as a store of entry values that both lists index into.
- Each Recognition passed to processResults is read once, as a Detection value.
- The tracker's `break` after 15 entries is the bound of the modelled loop.
- nms: the source takes the head of a PriorityQueue, and among boxes of equal confidence the head depends on the heap. The model takes the first such box in list order.
- COLORS are modelled as the ARGB words as non-negative ints. Java holds them as negative signed ints; the values are only stored and never compared.
- A matched tracker entry keeps its old location, and the previous snapshot is kept when there were no entries. The code does both, and the model follows the code, although the tracker is described as moving a matched entry to the new box and as matching only the previous frame's entries.
- JavaStrings.LessEq orders strings by UTF-16 code units, as String.compareTo does. A Dafny string is a sequence of Unicode scalar values, so the order is stated over their UTF-16 encoding (CharUnits, Utf16). Java strings holding unpaired surrogates cannot be written as Dafny strings, and are not modelled.
- ReadCodesFile, in both apps, keeps each line untrimmed: the result of `trim()` at line 211 (and at ClassesParser 81) is dropped. The model keeps the line untrimmed too.
- SortBreeds: a list of fewer than two entries is returned as it is, so a lone null does not throw. This matches Collections.sort.

## Findings

| source | as written | input that shows it | evidently intended | confidence | as-written member | corrected member |
|---|---|---|---|---|---|---|
| CameraTest/app/src/main/java/com/camera/cameratest/MainActivity.java:227-235 | a box's names go into slot `ii` only while the list has more than `ii` entries, and are appended otherwise, so after a box with no hits, the next box's names each get their own slot | box 0 with scores [0.1], box 1 with [0.1, 0.9, 0.9], threshold 0.3: the result is ["Akita", "Boxer"] instead of one entry "Akita\nBoxer" | one entry per labelled box, holding its names joined by newlines: the `resultBreeds.size() > ii` test (line 227) treats slot `ii` as box `ii`'s entry, which only holds when every earlier box has one | not executed; proved on the model | CameraMain.AccumulateSplitsBox | CameraMain.PerBoxLabelsCorrect |

The corrected definition is CameraMain.PerBoxLabels. The concrete input in the finding is stated with codes "n1"/"n2" at indices 1 and 2 and the names "Akita"/"Boxer". Collections.sort at line 242 also reorders the entries, so even the corrected list is not in box order once sorted. CameraMain.DoRecognition models the code as written.
