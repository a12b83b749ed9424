# ThumbnailStudio core, modelled in Dafny

ThumbnailStudio is a browser editor for thumbnail artboards. An artboard is a stack of
layers: text made of styled spans, images and shapes. Each layer has a position, a size,
a rotation and a z-index. This project models the editor's logic and proves what it
promises. The modules follow the program's own files:

- `text_spans.dfy` (`TextSpans`): the rich-text span operations. These restyle a range,
  merge spans, extract a range, remove a range, and report the state of a style or a
  property over a range. Every one of them is stated on the sequence of styled characters
  the spans spell.
- `text_layout.dfy` (`TextLayout`): breaking spans into lines, and the measured size of a
  text box.
- `transform.dfy` (`Transform`, class `Interaction`): the drag, resize, snap and auto-fit
  gestures of one layer.
- `group_transform.dfy` (`GroupTransform`, class `GroupInteraction`): the move, rotate and
  resize gestures of a multi-layer selection.
- `geometry.dfy` (`Geometry`): points, boxes and changes of frame.
- `artboard_view.dfy` (`ArtboardView`): render order, bounding boxes, selection status,
  and guide editing.
- `history.dfy` (`UndoHistory`, class `History`): the undo/redo history hook.
- `csv_import.dfy` (`CsvImport`): the CSV parser.
- `csv_editor.dfy` (`CsvEditor`, classes `Row` and `Editor`): the CSV data editor with its
  own history, row references and column split.
- `app_layers.dfy`, `app_arrange.dfy`, `app_csv.dfy`, `app_selection.dfy`, `app_style.dfy`
  (`AppLayers`, `AppArrange`, `AppCsv`, `AppSelection`, `AppStyle`): the application hook.
  This covers duplication, reordering, align and distribute, generating artboards from CSV
  rows, layer selection, zoom, style commands and splitting a text layer.
- `color.dfy` (`Color`): the hex colour conversions of the colour picker.
- `font_selector.dfy` (`FontSelector`): the font selector.
- `editor_panel.dfy` (`EditorPanel`): the derived state of the editor panel.
- `legacy_app.dfy` (`LegacyApp`): the older single-file application.
- `ruler_guides.dfy` (`RulerGuides`): the ruler interval and the guide dialog.
- `types.dfy`, `strings.dfy`, `sorting.dfy`, `wrappers.dfy`: the shared parts.
  - `types.dfy` holds the data model.
  - `strings.dfy` holds the JavaScript string primitives: `trim`, upper-casing, decimal
    formatting and the clamping `substring`.
  - `sorting.dfy` holds a stable insertion sort, which stands in for
    `Array.prototype.sort`.
  - `wrappers.dfy` holds `Option`.

Code that changes state step by step is imperative Dafny:
- the gesture handlers are classes whose fields are the captured interaction state;
- the two histories are classes;
- the loops are methods proved equal to the functions that specify them.

Pure code is datatypes, functions and lemmas. The browser is replaced by parameters:
- measured text widths, the drawing context's presence, sine and cosine, and the mouse
  angle;
- time-based ids and the `parseFloat` of the guide dialog.

## Model

| member | source | states |
|---|---|---|
| TextSpans.ApplyTextStyle | utils/text.ts:11-79 | The loop gives `Restyled`. The resulting characters are the input's, with exactly those inside the range patched. |
| TextSpans.RestyledChars | utils/text.ts:11-79 | Restyling patches exactly the characters in `[start, end)`. Every other character keeps its style and place. |
| TextSpans.RestyledText | utils/text.ts:11-79 | Styling never changes the plain text. |
| TextSpans.MergeSpans | utils/text.ts:82-105 | The loop gives `Merged`. Characters and styles are kept, no empty span remains, and the result is canonical when the input had no empty span. |
| TextSpans.MergedChars | utils/text.ts:82-105 | Merging keeps every styled character in order. |
| TextSpans.MergedCanonical | utils/text.ts:92-103 | The merge leaves no empty span. Without empty input spans, no two neighbours have equal style. |
| TextSpans.MergedIdempotent | utils/text.ts:82-105 | A second merge of spans without empty ones changes nothing. |
| TextSpans.MergedNotIdempotentAcrossEmptySpan | utils/text.ts:96-103 | An empty span between equal styles blocks the first merge, and a second merge then joins them. |
| TextSpans.Tidied | utils/text.ts:82-105 | The filtered-and-merged span list stored after an edit keeps every character. It is the single empty span exactly when there are no characters, and canonical otherwise. |
| TextSpans.GetSpansForRange | utils/text.ts:107-140 | The loop gives `SpansInRange`. Its characters are exactly the window of the range, and no span is empty. |
| TextSpans.SpansInRangeChars | utils/text.ts:107-140 | Extraction is exactly the styled characters of the clamped range. |
| TextSpans.RemoveRangeFromSpans | utils/text.ts:215-252 | The loop gives `SpansOutsideRange`. |
| TextSpans.SpansOutsideRangeChars | utils/text.ts:215-252 | An empty range keeps the spans. Otherwise exactly the characters outside the range remain, in order. |
| TextSpans.RemoveAndExtractPartition | utils/text.ts:215-252 | The characters outside a range, with the extracted ones put back at the range start, are the original characters. |
| TextSpans.StyleStateChars | utils/text.ts:142-181 | `getStyleStateForRange` depends only on the styled characters in the window. |
| TextSpans.SpansToggleChars | utils/text.ts:168-180 | Over spans without empty ones, the true/false/mixed state equals the state over their characters. |
| TextSpans.ToggleSetsState | utils/text.ts:142-181 | Applying a toggle patch over a non-empty window makes the style uniformly that value there. |
| TextSpans.UniformToggle | utils/text.ts:168-180 | Characters that all agree on a style report that value. |
| TextSpans.ScriptAllSame | utils/text.ts:155-160 | For the script key, all spans agree exactly when all are superscript or none is. |
| TextSpans.TransformAllSame | utils/text.ts:162-167 | For the case key, all spans agree exactly when all are upper case or none is. |
| TextSpans.GetPropertyStateForRange | utils/text.ts:183-213 | The loops give `PropertyStateForRange`. |
| TextSpans.PropertyStateChars | utils/text.ts:183-213 | Over a non-empty window, the state is the characters' common value, with the layer value as fallback, or mixed. |
| TextSpans.FallbackFound | utils/text.ts:189-201 | The fallback search finds a span exactly when the position lies between the start and end of the text, both included. |
| TextLayout.BreakIntoLines | utils/text.ts:422-442 | The nested loops give `LinesOf`. |
| TextLayout.LinesOfChars | utils/text.ts:422-442 | The lines hold every non-newline character with its style, in order. |
| TextLayout.LinesOfCount | utils/text.ts:422-442 | There is one line per newline, plus one when text follows the last newline. |
| TextLayout.LinesOfClean | utils/text.ts:422-442 | Every line consists of non-empty spans without newlines. |
| TextLayout.SplitLinesFacts | utils/text.ts:429-429 | `split('\n')` gives one piece more than there are newlines. No piece holds a newline, and together they are the text without newlines. |
| TextLayout.FontOf | utils/text.ts:455-455 | An unset or empty span font family falls back to the layer's. |
| TextLayout.MeasureLine | utils/text.ts:452-458 | The loop sums the measured widths of the line's spans. |
| TextLayout.WidestLine | utils/text.ts:449-462 | The loop gives the running maximum of the line widths. |
| TextLayout.WidestIsMaximum | utils/text.ts:449-462 | The maximum is at least 0, at least every line's width, and 0 or some line's width. |
| TextLayout.TextSizeBounds | utils/text.ts:413-469 | Without a drawing context the size is unchanged. Otherwise the height is lines times font size plus padding, and the width is the widest line plus padding. |
| TextLayout.CalculateTextDimensions | utils/text.ts:413-469 | The method computes `TextSize`, whose bounds are given by TextSizeBounds. |
| Geometry.LocalWorldInverse | components/TransformableObject.tsx:340-344 | For a unit (cos, sin) pair, the local and world changes of frame undo each other. |
| Geometry.RotatePivotFixed | components/SelectionBox.tsx:23-30 | `rotatePoint` leaves the pivot where it is. |
| Geometry.RotatePreservesDistance | components/SelectionBox.tsx:23-30 | A true rotation keeps every point's distance to the pivot. |
| Transform.HandleSizeEffect | components/TransformableObject.tsx:416-421 | Left handles keep the width and every other handle adds `dx`, because `'resize-'` always contains `r`. Top handles subtract `dy` from the height, and bottom handles add it. |
| Transform.ResizedBoxSize | components/TransformableObject.tsx:416-424 | Without shift, both sides are at least 10 and follow the handle rules. |
| Transform.ResizedSizeRatio | components/TransformableObject.tsx:426-433 | With shift, the new size keeps the initial width-to-height ratio. |
| Transform.ResizedBoxAnchor | components/TransformableObject.tsx:435-449 | A non-text resize keeps the handle's anchor point fixed in world space. |
| Transform.RecentredKeepsAnchor | components/TransformableObject.tsx:435-449 | For any new size, the recentred box keeps the anchor fixed. |
| Transform.TextResizedApplies | components/TransformableObject.tsx:351-378 | A text resize always applies. Its scale turns the initial width into the width the handle rules give, or is 1 for a box without width. |
| Transform.ScaledTextSize | components/TransformableObject.tsx:376-386 | Width and height scale by one factor, so the ratio is kept, and the base font size stays at least 1. |
| Transform.ScaledTextAnchor | components/TransformableObject.tsx:385-401 | A text resize keeps the anchor point fixed. |
| Transform.SnapReports | components/TransformableObject.tsx:304-322 | The snap loop reports every matching guide, in list order. |
| Transform.SnapToGuides | components/TransformableObject.tsx:297-324 | The snap loop computes `Snapped`. |
| Transform.FitRecentres | components/TransformableObject.tsx:81-129 | The auto-fit keeps the vertical centre. It keeps the left edge for left-aligned text, the right edge for right-aligned text, and the horizontal centre otherwise. A side within 1 of the measure is left alone. |
| Transform.EditedSpans | components/TransformableObject.tsx:576-606 | The committed spans keep every character. They are a single empty span or canonical, and equal `Tidied` of the spans read back. |
| Transform.Interaction.MouseDown | components/TransformableObject.tsx:229-262 | A locked layer, a layer being edited or a held space bar ignores the press and nothing changes. Otherwise the gesture, the pointer and the layer box are captured, a resize marks the layer hand-resized, the selection is copied for a group move or a text layer, the axis lock is cleared, and an alt-press on move starts a duplicate. |
| Transform.Interaction.MoveTo | components/TransformableObject.tsx:266-337 | The move target is the captured position plus the axis-locked delta, snapped when asked. A group move shifts every captured layer by the same final delta. |
| Transform.Interaction.ResizeTo | components/TransformableObject.tsx:413-451 | The new box is `ResizedBox` of the handle, the initial box and the zoomed delta. |
| Transform.Interaction.ResizeTextTo | components/TransformableObject.tsx:346-412 | A text resize uses the captured copy of the layer, and is None when that copy is missing. |
| Transform.Interaction.MouseUp | components/TransformableObject.tsx:461-482 | An alt-drag reports a duplicate at the dropped position, and the gesture is cleared. |
| Transform.Interaction.TextChanged | components/TransformableObject.tsx:516-606 | A text edit clears the hand-resized flag, commits `EditedSpans` and bumps the version. |
| Transform.Interaction.AutoFit | components/TransformableObject.tsx:81-129 | Nothing happens during a gesture. Otherwise the fit updates apply, with the width held after a hand resize or while editing. |
| GroupTransform.GroupInteraction.MouseDown | components/SelectionBox.tsx:42-62 | A held space bar ignores the press and nothing changes. Otherwise the gesture, the pointer, the box (at rotation 0) and a copy of the selected layers are captured, and the axis lock is cleared. |
| GroupTransform.GroupInteraction.MoveTo | components/SelectionBox.tsx:72-97 | Every captured layer moves by the same axis-locked delta. |
| GroupTransform.GroupInteraction.RotateTo | components/SelectionBox.tsx:98-115 | As written: every layer's rotation grows by `angle + 90` less the box's rotation, and its centre goes through `rotatePoint` about the box centre, which is the rigid turn by the opposite angle. |
| GroupTransform.GroupInteraction.RotateToCorrected | components/SelectionBox.tsx:98-115 | The corrected rotate: rotations grow by the same angle, and every centre turns about the box centre in the same direction. |
| GroupTransform.TurnFacts | components/SelectionBox.tsx:102-115 | For the written and the corrected rotate alike, each layer's rotation grows by the same angle, a true rotation keeps its centre's distance to the pivot, and a layer centred on the pivot stays put. |
| GroupTransform.TurnIsRigid | components/SelectionBox.tsx:102-113 | The group turns as one rigid body: every point of a layer lands where turning it about the pivot puts it, once the layer's own turn is added to its rotation. |
| GroupTransform.WrittenTurnsBackwards | components/SelectionBox.tsx:22-30 | The written `rotatePoint` turns the centres by the opposite angle; a quarter turn of a layer off the pivot puts it elsewhere than the rigid turn, with the same rotation. |
| GroupTransform.WrittenTurnAllBackwards | components/SelectionBox.tsx:102-113 | Over the whole selection, the written rotate equals the corrected rotate by the negated angle. |
| Geometry.ToWorldNorm | components/SelectionBox.tsx:25-29 | A unit (cos, sin) pair keeps a vector's length. |
| Geometry.ToWorldCompose | components/SelectionBox.tsx:102-113 | Turning by one angle and then another is turning by their sum, as CSS `rotate()` angles add. |
| GroupTransform.GroupInteraction.ResizeTo | components/SelectionBox.tsx:116-171 | Every captured layer is scaled into the new group box. |
| GroupTransform.GroupBoxEdges | components/SelectionBox.tsx:125-152 | The box's x never changes. A top handle keeps the bottom edge, a bottom handle the top edge, and a side handle the vertical centre. |
| GroupTransform.ScaleRigid | components/SelectionBox.tsx:154-171 | Centre offsets and sizes scale by the box's factors, so the formation is kept. |
| GroupTransform.ScaleFillsBox | components/SelectionBox.tsx:154-171 | A layer filling the old box fills the new one. |
| GroupTransform.GroupInteraction.MouseUp | components/SelectionBox.tsx:179-183 | Mouse-up ends the interaction. |
| ArtboardView.Visible | components/Artboard.tsx:166-167 | Exactly the visible layers remain, with `visible` defaulting to true. |
| ArtboardView.VisibleKeepsOrder | components/Artboard.tsx:167-167 | The filter distributes over concatenation and keeps a list of visible layers whole, so order and repeats are kept. |
| ArtboardView.RenderOrderFacts | components/Artboard.tsx:166-168 | The rendered layers are the visible ones in ascending z. Layers with equal z keep their list order. |
| ArtboardView.BoundingBoxOfLayers | components/Artboard.tsx:101-129 | No layers give the zero box, and the box has a non-negative size. |
| ArtboardView.BoundingBoxTight | components/Artboard.tsx:101-129 | The box holds every rotated corner, and each edge touches one. |
| ArtboardView.BoundingBoxContainsLayer | components/Artboard.tsx:101-129 | Every corner of every layer lies in the box. |
| ArtboardView.BoundingBoxUnrotated | components/Artboard.tsx:104-128 | Without rotation, the box runs from the least left and top edges to the greatest right and bottom edges. |
| ArtboardView.SelectionBoundingBox | components/Artboard.tsx:169-170 | A box is drawn exactly when more than one id is selected. |
| ArtboardView.SelectionBoxContains | components/Artboard.tsx:169-170 | Every visible selected layer's corners lie in the selection box. |
| ArtboardView.SelectionStatus | components/Artboard.tsx:205-209 | The status is key exactly for the key object, selected exactly for other selected ids, and none otherwise. |
| ArtboardView.UpdateGuide | components/Artboard.tsx:172-176 | Only the guide with the id moves, and a missing list stays missing. |
| ArtboardView.MovesCommute | components/Artboard.tsx:172-176 | Moves of different guides commute, and a second move overrides the first. |
| ArtboardView.DeleteGuide | components/Artboard.tsx:177-181 | Exactly the guides with another id remain, and a missing list stays missing. |
| ArtboardView.WithoutKeepsOrder | components/Artboard.tsx:177-181 | The filter distributes over concatenation and keeps a list without the id unchanged, so survivors keep their order. |
| ArtboardView.WithoutAfterMove | components/Artboard.tsx:172-181 | Moving a guide and then deleting it equals deleting it. |
| ArtboardView.DragPosition | components/Artboard.tsx:44-58 | No drag while guides are locked. Otherwise the guide moves by the mouse's travel across it, divided by the zoom. |
| ArtboardView.DragReturns | components/Artboard.tsx:44-58 | Returning the mouse puts the guide back, and travel along the guide does not move it. |
| UndoHistory.History.constructor | hooks/useHistoryState.ts:4-5 | The history starts as a single entry, with nothing to undo or redo. |
| UndoHistory.History.SetState | hooks/useHistoryState.ts:7-21 | An equal state is ignored. Otherwise the redo entries are dropped, and the new state is appended and becomes current. |
| UndoHistory.History.Update | hooks/useHistoryState.ts:9-11 | The functional form applies the same rule to `f(current)`. |
| UndoHistory.History.Undo | hooks/useHistoryState.ts:23-27 | Undo steps back only when the index is above 0, and the list is unchanged. |
| UndoHistory.History.Redo | hooks/useHistoryState.ts:29-33 | Redo steps forward only when there is a later entry, and the list is unchanged. |
| UndoHistory.History.Reset | hooks/useHistoryState.ts:35-38 | Reset leaves a single-entry history. |
| UndoHistory.UndoThenRedo | hooks/useHistoryState.ts:23-33 | Undo then redo restores index, list and current state. |
| UndoHistory.RedoThenUndo | hooks/useHistoryState.ts:23-33 | Redo then undo restores index and list. |
| UndoHistory.SetThenUndo | hooks/useHistoryState.ts:7-27 | After a recorded change, undo brings back the state that was current before. |
| CsvImport.SplitCsvLines | App.tsx:59-68 | The quote-aware loop gives the non-blank raw lines. |
| CsvImport.NonBlankKeepsOrder | App.tsx:67-67 | Dropping blank lines distributes over concatenation and keeps non-blank lines whole, so order and repeats are kept. |
| CsvImport.RawLinesJoin | App.tsx:59-68 | Joining the raw lines with `\n` gives the input back. |
| CsvImport.NoQuotesPlainSplit | App.tsx:59-68 | Without quotes, the splitter is a plain split on `\n`. |
| CsvImport.ParseCsv | App.tsx:70-87 | The parse computes `TableOf`. |
| CsvImport.BlankTable | App.tsx:71-72 | A blank file has no headers and no rows. |
| CsvImport.TableShape | App.tsx:73-86 | The headers are the trimmed pieces of the first line, with one row per further line. |
| CsvImport.TableRow | App.tsx:76-85 | Each header of a row holds the unquoted cell at its last position. |
| CsvImport.HeadersOf | App.tsx:73-73 | There is one trimmed header per comma-separated piece. |
| CsvImport.SplitFieldsJoin | App.tsx:77-77 | Joining the fields with commas gives the line back. |
| CsvImport.SplitFieldsNoQuotes | App.tsx:77-77 | Without quotes, the line is split at every comma. |
| CsvImport.QuotedCommaKept | App.tsx:77-77 | A comma inside quotes does not split. |
| CsvImport.UnquoteCases | App.tsx:80-81 | The outer quotes of a value of two or more characters are removed, and any other value is kept. |
| CsvImport.RowOfKeys | App.tsx:79-83 | A row has exactly one key per header. |
| CsvImport.RowOfCell | App.tsx:79-83 | With duplicate headers, the last occurrence wins. |
| CsvEditor.Editor.constructor | components/CsvDataModal.tsx:117-125 | The editor starts with one history entry, live rows equal to its rows, and no style mappings. |
| CsvEditor.Editor.PushState | components/CsvDataModal.tsx:155-160 | The redo entries are dropped, the new entry is appended and becomes current, and the live rows follow it. |
| CsvEditor.Editor.HandleUndo | components/CsvDataModal.tsx:162-164 | Undo steps back only when possible, and the live rows follow. |
| CsvEditor.Editor.HandleRedo | components/CsvDataModal.tsx:166-168 | Redo steps forward only when possible, and the live rows follow. |
| CsvEditor.Editor.HandleLiveRowChange | components/CsvDataModal.tsx:170-174 | The shared row object is written in place, as the source does. |
| CsvEditor.Editor.HandleLiveRowChangeCopied | components/CsvDataModal.tsx:170-174 | The corrected edit copies the row first, so the history keeps its values. |
| CsvEditor.Editor.CommitChanges | components/CsvDataModal.tsx:176-180 | A new entry is pushed exactly when the live rows' values differ from the current entry's. |
| CsvEditor.Editor.HandleDeleteRow | components/CsvDataModal.tsx:183-187 | Exactly that row is removed and the result recorded. An index outside the table removes nothing. |
| CsvEditor.Editor.HandleSplitText | components/CsvDataModal.tsx:242-280 | The least free `header_split_n` is inserted after the source column. Every row is copied, and the style mapping is set when a style is chosen. |
| CsvEditor.FreshSplitHeader | components/CsvDataModal.tsx:250-255 | The counter loop finds the least `n >= 1` whose header is free. |
| CsvEditor.SplitCells | components/CsvDataModal.tsx:246-274 | The selected cell and the new cell, put together, re-form the original text. Other rows get an empty cell, and other keys are kept. |
| CsvEditor.IndexOf | components/CsvDataModal.tsx:261-261 | The result is the first position holding the header, or -1 exactly when it is absent. |
| CsvEditor.Without | components/CsvDataModal.tsx:184-184 | Exactly the element at that index is dropped. |
| CsvEditor.EditIsNotRecorded | components/CsvDataModal.tsx:170-180 | As written, an edit followed by a commit adds no entry, and the current entry itself now holds the edit. |
| CsvEditor.EditIsRecorded | components/CsvDataModal.tsx:170-180 | With copy-on-write, a changing edit becomes an entry, and the previous entry keeps the old values. |
| AppLayers.GenerateNewDataId | hooks/useAppLogic.ts:68-90 | The result is the least free `name + n`, counting from the counter that the split of the base gives. |
| AppLayers.SplitNumbered | hooks/useAppLogic.ts:71-78 | A one-line name (no `\n`, `\r`, U+2028 or U+2029) followed by digits continues at the digits' value plus one: `card3` continues at `card4`. |
| AppLayers.SplitAcrossLineBreak | hooks/useAppLogic.ts:71-78 | `.` matches no line terminator, so a name holding one before its digits fails the pattern and starts at counter 1 on the whole base: `a\nb3` continues at `a\nb31`. |
| AppLayers.SplitPlain | hooks/useAppLogic.ts:71-78 | A base without a trailing digit starts the counter at 1. |
| AppLayers.DigitRunLongest | hooks/useAppLogic.ts:71-73 | The digit run is the longest all-digit suffix, as the lazy prefix makes it; the split uses it only when no line terminator precedes it. |
| AppLayers.DuplicateSelectedLayers | hooks/useAppLogic.ts:408-463 | Nothing happens without a selected layer. Otherwise copies are made and the list is renumbered in batch order. |
| AppLayers.BatchOrderFacts | hooks/useAppLogic.ts:408-463 | The copies sit right above the topmost source, z-indices are distinct positions `0..n-1`, and originals keep their relative order. |
| AppLayers.DuplicateLayer | hooks/useAppLogic.ts:1326-1396 | The source is restored after an alt-drag, and the copy goes to the drop point or is offset by (10, 10). A fresh dataId is given, the copy becomes the only selected layer, the key object is cleared, an alt-drag ends the interaction, and the result is None for a missing id. |
| AppLayers.DuplicateAt | hooks/useAppLogic.ts:1345-1380 | For the first layer with the id: the copy is built from the source as in the row above, pushed, and every layer is renumbered to its place in the order with the copy spliced in right above the restored source. |
| AppLayers.SingleOrderFacts | hooks/useAppLogic.ts:1333-1380 | The copy lands right above its source, z-indices are distinct positions, and the others keep their order. |
| AppLayers.ReorderAdjacent | hooks/useAppLogic.ts:1398-1418 | The dragged layer ends right below or above the target, and only z-indices change. |
| AppLayers.ReorderKeepsOthersOrder | hooks/useAppLogic.ts:1398-1418 | With unique ids the new z-indices are pairwise distinct, and every other pair of layers keeps its relative order. |
| AppLayers.ReorderNoOp | hooks/useAppLogic.ts:1398-1418 | A reorder is a no-op exactly when a layer is missing or the two are the same. |
| AppArrange.AlignMovesSelection | hooks/useAppLogic.ts:1503-1542 | Every selected non-key layer is aligned on one axis, and everything else is untouched. |
| AppArrange.TargetBoundsCases | hooks/useAppLogic.ts:1506-1523 | The target is the key object's box, the artboard, or the selection's extent, under the conditions the code uses. |
| AppArrange.SelectionExtentTight | hooks/useAppLogic.ts:1517-1521 | The extent holds every selected box, and each edge is some layer's. |
| AppArrange.Distribute | hooks/useAppLogic.ts:1544-1617 | Nothing happens for fewer than three layers. Otherwise the layers are spread in the order of the distributed line. |
| AppArrange.DistributeAsWritten | hooks/useAppLogic.ts:1544-1617 | The same spread, with the `h-dist-right` comparator as written. |
| AppArrange.SpreadEven | hooks/useAppLogic.ts:1554-1614 | The ends are the least and greatest line and stay where they are. The inner lines are evenly spaced, and the result is a permutation. |
| AppArrange.WrittenRightIsNoKeyOrder | hooks/useAppLogic.ts:1606-1606 | The written comparator is no key order. |
| AppArrange.WrittenRightMovesOutermost | hooks/useAppLogic.ts:1606-1606 | As written, the rightmost layer is moved inward. |
| AppCsv.Classify | hooks/useAppLogic.ts:1015-1024 | A fill carries the trimmed, non-empty cell. |
| AppCsv.ClassifyIgnoresPadding | hooks/useAppLogic.ts:1015-1024 | Surrounding white space never changes a cell's effect. |
| AppCsv.ClassifyIgnoresCase | hooks/useAppLogic.ts:1015-1024 | Letter case never changes whether a cell shows or hides its layer. |
| AppCsv.ClassifyByUpper | hooks/useAppLogic.ts:1015-1024 | Cells equal after trim and upper-casing show or hide alike. |
| AppCsv.RefilledText | hooks/useAppLogic.ts:1028-1043 | The text becomes the value, or stays as it was when the mapped style is missing. The style's properties replace the layer's, and without a mapping the first span's style is kept. |
| AppCsv.ApplyRowFacts | hooks/useAppLogic.ts:1012-1077 | An unnamed layer is untouched. Otherwise it is shown unless the cell is FALSE or blank, keeps its identity, and re-measured text keeps its anchor. |
| AppCsv.FilledTextIsCell | hooks/useAppLogic.ts:1028-1043 | A refilled text layer shows the trimmed cell. |
| AppCsv.FindStyle | hooks/useAppLogic.ts:1031-1031 | The result is a style with that id, or None exactly when none exists. |
| AppCsv.SplitOrigin | hooks/useAppLogic.ts:1081-1083 | A match is `name_split_digits` with no line break in the name. |
| AppCsv.SplitOriginComplete | hooks/useAppLogic.ts:1081-1083 | Every such column is recognised. |
| AppCsv.SplitLayersAt | hooks/useAppLogic.ts:1080-1134 | Each added layer is a split-off layer with consecutive z, carrying one of the columns as its dataId. |
| AppCsv.ArtboardFromRowFacts | hooks/useAppLogic.ts:1001-1137 | A row's artboard holds the template's layers under the row's rule, then split layers above all of them, numbered from the top z plus 2. |
| AppCsv.GenerateReplacesTemplate | hooks/useAppLogic.ts:994-1140 | The other artboards come first in order, then one per row. The template is gone. |
| AppCsv.OthersKeepsOrder | hooks/useAppLogic.ts:1140-1140 | The filter that drops the template distributes over concatenation and keeps artboards with other ids whole, so order and repeats are kept. |
| AppSelection.ClickSelects | hooks/useAppLogic.ts:1478-1491 | A plain click makes the layer the key object of a larger selection it is in, or the only selected layer. |
| AppSelection.ToggleFlips | hooks/useAppLogic.ts:1464-1477 | A toggle flips only that layer, and a key object survives only while selected among two or more. |
| AppSelection.RangeSelectAdds | hooks/useAppLogic.ts:1450-1463 | A shift-click in the panel adds every layer between the two in z, keeping the old selection in order, without repeats. |
| AppSelection.RangeCovers | hooks/useAppLogic.ts:1453-1460 | The range holds both ends and every layer between them in z. |
| AppSelection.PanelOrder | hooks/useAppLogic.ts:1453-1453 | The panel order is descending z, with each id once. |
| AppSelection.ToggleTwice | hooks/useAppLogic.ts:1466-1468 | Toggling in and out restores the selection. |
| AppSelection.ClampZoom | hooks/useAppLogic.ts:338-338 | The zoom is clamped to [0.1, 5], and values within the range are kept. |
| AppSelection.ZoomKeepsCentre | hooks/useAppLogic.ts:335-350 | The world point at the container centre is the same before and after. |
| AppStyle.ApplyStyleToSelection | hooks/useAppLogic.ts:853-882 | Only the single selected text layer is restyled. Otherwise the layers are unchanged. |
| AppStyle.RestyleLayerMeaning | hooks/useAppLogic.ts:853-882 | Over the command's range, exactly the characters are patched. The text is kept and the version bumped. |
| AppStyle.Restyle | hooks/useAppLogic.ts:862-877 | The restyled spans are tidied and the version is bumped, and nothing else changes. |
| AppStyle.ToggleStyle | hooks/useAppLogic.ts:884-911 | Without a single selected text layer, nothing changes. |
| AppStyle.ToggleFlips | hooks/useAppLogic.ts:884-911 | A toggle turns the style off where it was uniformly on, and on otherwise. |
| AppStyle.ToggleTwice | hooks/useAppLogic.ts:884-911 | Two toggles from uniformly on give off, then on again. |
| AppStyle.MaxZ | hooks/useAppLogic.ts:913-966 | `Math.max(0, ...z)` is at least 0 and at least every z, and it is 0 or some layer's z, so it is exactly that maximum. |
| AppStyle.SplitFacts | hooks/useAppLogic.ts:913-991 | A split appends one layer above all others, holding the range's characters. The source keeps the rest, and the two re-form the text. The new layer becomes the only selection, and the key object and the selection state are cleared; without a selected range nothing happens. |
| Color.HexToRgb | components/ColorPicker.tsx:5-14 | The parsed components are bytes. |
| Color.HexToRgbAccepts | components/ColorPicker.tsx:5-14 | Exactly six hex digits are accepted, with an optional `#`. |
| Color.ByteRange | components/ColorPicker.tsx:9-12 | Two hex digits parse to at most 255. |
| Color.RgbToHexForm | components/ColorPicker.tsx:16-18 | The result is `#` and six upper-case digits of the bytes in order. |
| Color.HexRoundTrip | components/ColorPicker.tsx:5-18 | Reading a written colour gives it back. |
| Color.HexNormalises | components/ColorPicker.tsx:5-18 | Writing a read colour gives `#` and the digits in upper case. |
| Color.HexInput | components/ColorPicker.tsx:173-179 | The typed value starts with `#` and is upper case. |
| Color.HexInputKeepsColour | components/ColorPicker.tsx:173-179 | Normalising keeps the colour named. |
| FontSelector.FindFamily | components/FontSelector.tsx:33-33 | The result is a family with that name, or None exactly when none exists. |
| FontSelector.NearestVariant | components/FontSelector.tsx:38-47 | The loop picks the earliest variant of nearest weight. |
| FontSelector.NearestUnique | components/FontSelector.tsx:42-45 | Ties go to the earliest, so the nearest variant is unique. |
| FontSelector.HandleFamilyChange | components/FontSelector.tsx:31-54 | An unknown or variant-less family gives nothing. Otherwise the family and the nearest weight are set. |
| FontSelector.VariantChange | components/FontSelector.tsx:56-59 | Only the parsed weight is set. |
| FontSelector.VariantChangeSetsWeight | components/FontSelector.tsx:56-59 | Choosing a variant's option sets its weight. |
| EditorPanel.CurrentStyle | components/EditorPanel.tsx:161-174 | Each value comes from the selection when it applies and reports one, and from the layer otherwise. |
| EditorPanel.CurrentSizeOfSelection | components/EditorPanel.tsx:161-174 | Selected characters of one size show that size. |
| EditorPanel.FinalFontSizes | components/EditorPanel.tsx:176-181 | The list is ascending. It is the stock list plus the current size when that is new and numeric, and the stock list otherwise. |
| EditorPanel.FontSizesOffered | components/EditorPanel.tsx:176-181 | The offered sizes are the stock sizes and the current size. |
| EditorPanel.AddStroke | components/EditorPanel.tsx:183-193 | A white stroke 5 wide is prepended, for text and shape layers only. |
| EditorPanel.DeleteUndoesAdd | components/EditorPanel.tsx:183-207 | Deleting the stroke just added restores the strokes. |
| EditorPanel.UpdateWhere | components/EditorPanel.tsx:195-200 | Only the stroke with the id is patched. |
| EditorPanel.UpdatesCompose | components/EditorPanel.tsx:195-200 | Two updates equal one update with the later fields winning. |
| EditorPanel.UpdateNoOp | components/EditorPanel.tsx:195-200 | An empty update, or one for a missing id, changes nothing. |
| EditorPanel.UpdateStroke | components/EditorPanel.tsx:195-200 | Strokes are sent exactly when a text or shape layer with a stroke list is selected, and then only the stroke with the id is patched. |
| EditorPanel.DeleteWhere | components/EditorPanel.tsx:202-207 | Exactly the strokes with another id remain. |
| EditorPanel.DeleteKeepsOrder | components/EditorPanel.tsx:202-207 | The filter distributes over concatenation, so the remaining strokes keep their order. |
| EditorPanel.DeleteStroke | components/EditorPanel.tsx:202-207 | Strokes are sent exactly when a text or shape layer with a stroke list is selected, and then exactly the strokes with another id remain. |
| EditorPanel.DeleteAbsent | components/EditorPanel.tsx:202-207 | Deleting a missing id changes nothing. |
| EditorPanel.WrittenMissesUniformStyle | components/EditorPanel.tsx:209-213 | As written, a uniformly superscript or upper-case selection shows inactive, while the corrected rule shows it active. |
| EditorPanel.WrittenFlagsAgree | components/EditorPanel.tsx:209-226 | The written and corrected rules agree on underline and strikethrough. |
| EditorPanel.SelectedStyleActive | components/EditorPanel.tsx:209-213 | With the corrected rule, a style is active exactly when some selected character has it. |
| EditorPanel.UnselectedStyleActive | components/EditorPanel.tsx:214-226 | Without a selection, a style is active exactly when some span has it. |
| EditorPanel.SpansColorMeaning | components/EditorPanel.tsx:617-628 | Without a selection, the colour is mixed exactly when two non-empty spans differ. Otherwise it is their common colour. |
| EditorPanel.WrittenShowsMixedAsColor | components/EditorPanel.tsx:605-616 | As written, differing selected colours show the word "mixed" and no mixed flag. |
| EditorPanel.SelectedColorShown | components/EditorPanel.tsx:603-616 | With the corrected order, the display is mixed exactly when selected colours differ, and the common colour otherwise. |
| EditorPanel.DefaultPanel | components/EditorPanel.tsx:729-751 | An open, available panel is kept. Otherwise the artboard, typography or properties panel opens, or none. |
| EditorPanel.DefaultPanelSettles | components/EditorPanel.tsx:729-751 | Running the effect again keeps its choice. |
| EditorPanel.DefaultPanelForLayer | components/EditorPanel.tsx:729-751 | A single text layer opens typography, and any other layer opens properties. |
| LegacyApp.WithoutKeepsOrder | src/App.tsx:61-66 | The artboard filter distributes over concatenation, so the remaining artboards keep their order. |
| LegacyApp.DeleteArtboard | src/App.tsx:61-66 | The artboard goes. A deleted active artboard hands over to the first remaining one when there were several, and to none otherwise. The TypeError case is None. |
| LegacyApp.DeleteArtboardSafe | src/App.tsx:61-66 | With unique ids, deletion never fails, and the new active artboard exists. |
| LegacyApp.AddLayer | src/App.tsx:68-106 | With an active artboard, the new layer goes above all others with `z = max(0, z) + 1` and becomes selected. |
| LegacyApp.DropLayerKeepsOrder | src/App.tsx:108-115 | The layer filter distributes over concatenation, so the remaining layers keep their order. |
| LegacyApp.DeleteLayer | src/App.tsx:108-115 | Only that id goes, and the selection is cleared when it was that layer. |
| LegacyApp.LayerZIndexChange | src/App.tsx:117-130 | The reordered list replaces the active artboard's layers. A failure is None. |
| LegacyApp.ReorderLayers | src/App.tsx:117-130 | Sorting the layers by z-index and then swapping on the array computes `Reordered`. |
| LegacyApp.SwapNeighbourInArray | src/App.tsx:121-127 | On an array of the layers in z order, the swap computes `SwapWithNeighbour`. The result is None when moving up a layer that is missing. |
| LegacyApp.SwapInPlace | src/App.tsx:124-126 | The destructuring assignment trades the two layers' z-indices in the copied array and changes nothing else. |
| LegacyApp.ReorderedKeepsZs | src/App.tsx:124-126 | The multiset of z-indices is kept. |
| LegacyApp.ReorderedChangesTwo | src/App.tsx:124-126 | At most two layers change, and they trade z-indices. |
| LegacyApp.MovesToNeighbour | src/App.tsx:120-127 | Up or down trades with the nearest layer in z, and no layer lies between them. |
| LegacyApp.EndsKeepZ | src/App.tsx:123-127 | At the ends, the move only sorts the list by z. |
| LegacyApp.UpMissingFails | src/App.tsx:121-124 | Moving up a missing id fails, unless there are no layers. |
| LegacyApp.ZOrderSorted | src/App.tsx:120-120 | The copy is sorted by z. |
| RulerGuides.FirstWide | App.tsx:130-132 | `find` stops at the first wide-enough interval, or finds none. |
| RulerGuides.OptimalIntervalChoice | App.tsx:130-132 | The interval is the smallest candidate more than 50 px apart on screen, else 1000. |
| RulerGuides.OptimalIntervalExamples | App.tsx:130-132 | At zoom 1 the interval is 100, and at zoom 0.01 it is 1000. |
| RulerGuides.Placed | App.tsx:1043-1046 | The guide lies at the offset from its side. |
| RulerGuides.RequestedSides | App.tsx:1041-1047 | Each filled field gets its guide, and there are no others. |
| RulerGuides.HandleAdd | App.tsx:1041-1050 | The guides go out in top, left, bottom, right order. The call happens exactly when there is a guide or clearing is asked. |
| Types.FindLayer | components/TransformableObject.tsx:349-349 | The result is the first layer with the id, or None exactly when it is absent. |
| Types.SelectedLayers | components/Artboard.tsx:169-169 | The selected layers are exactly those whose id is selected. |
| Types.SelectedKeepsOrder | components/Artboard.tsx:169-169 | The filter distributes over concatenation and keeps a list of selected layers whole, so order and repeats are kept. |

## Left out

- Every string is a Dafny sequence of Unicode scalar values. JavaScript's `length`, `substring` and the DOM's selection offsets count UTF-16 code units, so a character outside the Basic Multilingual Plane (an emoji) shifts every range by one. TextSpans.ApplyTextStyle, TextSpans.GetSpansForRange, TextSpans.RemoveRangeFromSpans, the `[0, total length)` range of AppStyle's style commands, and CsvEditor.Editor.HandleSplitText with CsvEditor.SplitCells all count characters instead.
- Strings.ToUpper: it upper-cases ASCII letters only, while `toUpperCase` is full Unicode.
- AppCsv.Classify: this follows from the ASCII-only upper-casing. The cell "falſe" (with U+017F) becomes "FALSE" in JavaScript and hides its layer, but the model fills the layer with the text "falſe". Color.HexInput differs in the same way on non-ASCII input.
- UndoHistory.History.SetState: the `JSON.stringify` comparison is modelled as structural equality of values. Key order and `undefined`-valued keys, which the serialisation ignores or orders, are not modelled.
- CsvEditor.Editor.CommitChanges: same as History.SetState; the `JSON.stringify` comparison is structural equality of the cell maps.
- AppCsv.WithStyle / AppCsv.ApplyRow: layer `shadow` and `glow` are not modelled, so the style's shadow, which the spread copies, is lost.
- AppCsv.WithStyle: it overwrites every optional text field with the style's value, including an absent one. The spread `{...textLayer, ...styleProps}` keeps the layer's value when the style lacks the key.
- RulerGuides.HandleAdd: `parseFloat` is a total function from strings to reals. The NaN guide that a non-numeric offset produces is not modelled.
- LegacyApp.DeleteArtboard: React effects are not modelled. The contract keeps the selected layer, but the effect on the active artboard id (src/App.tsx:16-19) clears the selection once the active artboard changes.
- React effects, listeners and rendering are not modelled in general: the modal reset effect of the CSV editor (its live-row reload is part of PushState, HandleUndo and HandleRedo), window listeners, and canvas and DOM drawing. The panel effect of the editor panel is modelled only as the function DefaultPanel.
- Dividing by zero: the Infinity or NaN results the source computes are not modelled.
- Transform.Interaction.ResizeTo: with shift it requires an initial height above 0. `initialWidth / initialHeight` is unguarded in the source and gives Infinity or NaN for a flat layer.
- GroupTransform.GroupInteraction.ResizeTo: it requires a group box of positive width and height. `newBoxWidth / initialBox.width` is unguarded and divides by zero for a flat group (ScaleRigid and ScaleFillsBox carry the same precondition).
- AppSelection.ZoomChange: it requires a current zoom other than 0. The reset view can produce a zoom of 0 or below for a container 80 px wide or less; a non-zero negative zoom is modelled. Transform's mouse delta and ArtboardView.DragPosition require a non-zero zoom for the same reason.
- Times and ids are parameters: the `Date.now()` ids of new layers, strokes and artboards, and the single time stamp of a CSV generation run. Artboard names derived from them are carried as given.
- Trigonometry, `atan2` and the rotate gesture of one layer (components/TransformableObject.tsx:453-458) are not modelled. Rotation is a (cos, sin) pair given as a parameter, and the group rotate takes the mouse angle as an input. Screen coordinates point y down, so a CSS `rotate()` by a positive angle is the (cos, sin) turn of Geometry.ToWorld.
- Canvas text measurement and the drawing context's presence are parameters of TextLayout and AppCsv.
- The editor's measured scroll size and the caret position of a split are parameters.
- Floating-point numbers are modelled as exact reals, so rounding, `isFinite`, and the NaN or Infinity cases are not modelled.
- Sorting.SortWith: `Array.prototype.sort` is modelled as a stable insertion sort. With a comparator that is no consistent order, such as the written `h-dist-right` one, the engine's order is implementation-defined; the model fixes one order.
- CsvEditor.Editor.HandleLiveRowChange: it requires the row index to be in range, because the source writes into `newRows[rowIndex]` and throws a TypeError otherwise.
- CsvEditor.Editor.HandleSplitText: it requires the selected header to be a key of the selected row, because `undefined.substring` throws otherwise. The selection and popover UI state it clears are not modelled.
- AppStyle.ToggleStyle: it requires a range when the selection applies, because the source reads `range!` and the style-state function throws on a missing range.
- Transform's alt-drag duplicate reports the layer as passed to mouse-up. The closure at components/TransformableObject.tsx:464 reads the layer as of mouse-down, and this staleness is not modelled.
- TextLayout.CalculateTextDimensions takes a text layer whose span list is always present. The `!layer.spans` fallback of an absent list does not arise in the model.
- EditorPanel: the stroke handlers' guards on the selected layer are modelled as pure map and filter over its strokes. Spreading an `undefined` field of a stroke patch is modelled as leaving that field unset.
- LegacyApp.SwapInPlace: `[...activeArtboard.layers]` (src/App.tsx:120) copies only references, so the swap also writes `zIndex` into the layer objects of the previous state. The model swaps values in a fresh array of values; this aliasing is not modelled. The older editor keeps no history, so nothing observes the old objects.
- Duplicate layer ids are allowed in the model. The lemmas that need unique ids say so in their preconditions.
- Object keys such as `__proto__`, which JavaScript objects treat specially, are ordinary map keys here.
- The gallery and editor view mode, local storage, project save, load and reset, font loading, style import and export, image upload and export are I/O and not modelled.
- HSV conversion, `hexToRgba`, polygon path generation and the CSS of text effects are rendering helpers and not modelled.
- The application hook's other handlers (layer lock and visibility toggles, artboard add and duplicate, template change, text and shape style libraries, guide add and clear, delete-all) are not part of this model.
- TextSpans.MergeSpans is idempotent only on lists without empty spans: an empty span between two spans of equal style separates them (MergedNotIdempotentAcrossEmptySpan). Every caller in the program filters empty spans first, so this is documented rather than listed as a finding.

## Findings

| source | as written | input that shows it | evidently intended | confidence | as-written member | corrected member |
|---|---|---|---|---|---|---|
| hooks/useAppLogic.ts:1606 | The `h-dist-right` comparator subtracts `b.y + b.width` from `a.x + a.width`, mixing `b`'s y into a right-edge order | Layers a (x 0, y 0, width 10), b (x 0, y -100, width 50), c (x 0, y 0, width 30): b has the greatest right edge, 50, but is moved to right edge 20 | Compare `b.x + b.width`: the outermost right edges stay and the inner layer is spaced evenly (only c, already in place) | not executed | AppArrange.DistributeAsWritten, AppArrange.WrittenRightMovesOutermost | AppArrange.Distribute, AppArrange.SpreadEven |
| components/CsvDataModal.tsx:170-180 | `[...liveRows]` copies only the list, so line 172 writes the row object that the current history entry shares (live rows come from it at lines 123 and 146), and the `JSON.stringify` comparison at line 177 never sees the edit | Edit a cell from "x" to "y" and leave it: no entry is pushed, and the current entry now holds "y", so undo cannot bring "x" back | Copy the row before writing it, so leaving the cell records a new entry and undo restores the old value | not executed | CsvEditor.Editor.HandleLiveRowChange, CsvEditor.EditIsNotRecorded | CsvEditor.Editor.HandleLiveRowChangeCopied, CsvEditor.EditIsRecorded |
| components/EditorPanel.tsx:209-213 | With a selection, a style counts as active when its state is `true` or `'mixed'`, but the selection reports the script and case states as 'superscript' or 'uppercase' (components/TransformableObject.tsx:205-208), never `true` | Select text that is all superscript (or all upper case): the superscript (or upper-case) button shows inactive | Count 'superscript' and 'uppercase' as active, as the branch without a selection does | not executed | EditorPanel.StyleActiveAsWritten, EditorPanel.WrittenMissesUniformStyle | EditorPanel.StyleActive, EditorPanel.SelectedStyleActive |
| components/EditorPanel.tsx:605-616 | The `typeof selectionColor === 'string'` branch comes before the `'mixed'` branch, and 'mixed' is a string, so the mixed branch never runs | Select characters of two colours: the picker gets the value "mixed" and is not marked mixed | Take 'mixed' first: show the layer's colour, marked mixed | not executed | EditorPanel.ColorDisplayAsWritten, EditorPanel.WrittenShowsMixedAsColor | EditorPanel.ColorDisplay, EditorPanel.SelectedColorShown |
| components/SelectionBox.tsx:22-30 | `rotatePoint` maps an offset (dx, dy) to (cos·dx + sin·dy, cos·dy − sin·dx), a turn by −angleDiff on the y-down screen, while line 111 turns each layer by +angleDiff under CSS `rotate()` | A quarter turn of a group whose layer is centred 100 px right of the box centre: the layer's centre lands 100 px above the box centre, a counter-clockwise turn, while the layer itself turns clockwise, so the group does not turn as one body | Turn the centres by +angleDiff, (cos·dx − sin·dy, sin·dx + cos·dy), so the group turns rigidly | not executed | GroupTransform.GroupInteraction.RotateTo, GroupTransform.WrittenTurnsBackwards | GroupTransform.GroupInteraction.RotateToCorrected, GroupTransform.TurnIsRigid |
