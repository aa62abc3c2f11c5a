# Shopy Mom wishlist page — a Dafny model

Shopy Mom is a one-page shopping wishlist. A household pastes a catalogue
reference or a product link, optionally adds a name, colour, size, quantity
and a free note, and the page stores the item in a hosted `items` table under
a shared list code. The page mirrors the list, renders a share text for the
clipboard, and lets the user delete one item or clear the whole list.

This project models the logic of `app/page.tsx`:

- `wrappers.dfy` — `Option`, used for the nullable columns.
- `text.dfy` (module `Text`) — the JavaScript primitives the page calls:
  `trim` (app/page.tsx:12, 118-122), with the exact ECMAScript white-space
  set, `join` (app/page.tsx:34, 37), the `\d` class and the decimal rendering
  of an integer (`${it.quantity}`). Trimming has a reference definition
  (`IsTrimOf`). `Trim` meets it, and the definition admits exactly one
  result. The page never calls `split`; `Split` and `IndexOf` are here only
  so that `Clipboard.FormatForClipboardLines` can count the lines of the
  share text.
- `normalize_ref.dfy` (module `RefNormalizer`) — `normalizeRef`. The match of
  `/(\d{6,})/` is modelled as the leftmost position where six ASCII digits
  start, extended greedily. A reference predicate (`IsFirstLongRun`) states
  what the match is. The search finds exactly the run that predicate
  describes.
- `clipboard.dfy` (module `Clipboard`) — the `Item` row and
  `formatForClipboard`. The header, placeholder, bullet and dash literals are
  kept as constants.
- `session.dfy` (module `Session`) — the page state as a class `Session`:
  form fields, `items`, `busy`, `loading` and `toast`. It holds the handlers
  `fetchItems`, `handleAddItem`, `handleDeleteItem` and `handleClearList`.
  The hosted table is a class `RemoteStore` holding its rows. Each call takes
  its outcome as an argument (`fails`) and records its request in a ghost
  `log`, so contracts can say which calls a handler makes. The identifier and
  timestamp that the store assigns on insert are arguments too.

`handleDeleteItem` returns before `fetchItems` when the delete fails
(`app/page.tsx:149-153`), so `Session.Session.DeleteItem` reloads the list
only after a successful delete.

## Model

| member | source | states |
|---|---|---|
| `Text.Trim` | app/page.tsx:12 | `input.trim()` is a trim of the input: a slice with only white space cut from both sides, and neither end of it white space |
| `Text.IsJsWhitespace` | app/page.tsx:12 | the characters `trim` removes: the ECMAScript WhiteSpace and LineTerminator code points; defined by its body, and `Text.Trim` and `Text.TrimCut` use it |
| `Text.IsAsciiDigit` | app/page.tsx:16 | the regular-expression class `\d`: the ten ASCII digits `0` to `9`; defined by its body; used in `RefNormalizer.DigitRunLength` and `RefNormalizer.IsFirstLongRun` |
| `Text.TrimCut` | app/page.tsx:12 | a slice with white space, and only white space, cut from either side, and no white space at its ends, is a trim |
| `Text.TrimOfUnique` | app/page.tsx:12 | a string has exactly one such trim, so the reference definition fixes `trim` |
| `Text.TrimEmptyIff` | app/page.tsx:12-13 | the trim is empty exactly when the input is all white space (the `!s` test) |
| `Text.TrimIdempotent` | app/page.tsx:12 | trimming twice gives the same as trimming once |
| `Text.TrimOfTrimmed` | app/page.tsx:12 | a string whose ends are not white space is its own trim |
| `Text.SplitJoin` | app/page.tsx:37 | splitting a `join("\n")` on line feeds gives the parts back, when no part holds a line feed |
| `Text.JoinAppend` | app/page.tsx:37 | joining two non-empty lists puts exactly one separator between their joins |
| `Text.Join` | app/page.tsx:34-37 | `Array.prototype.join`: the elements with the separator between each two; defined by its body; its properties are in `Text.JoinAppend`, `Text.SplitJoin` and `Clipboard.JoinSnoc` |
| `Text.IntToDecimal` | app/page.tsx:33 | `${quantity}` is a digit string, with a leading `-` for negative quantities |
| `Text.NatToDecimalValue` | app/page.tsx:33 | reading the decimal rendering back gives the number |
| `Text.IntToDecimalInjective` | app/page.tsx:33 | two quantities rendered alike are equal |
| `RefNormalizer.DigitRunLength` | app/page.tsx:16 | the length of the digit run at a position: all digits, and it stops at a non-digit or the end |
| `RefNormalizer.MatchFrom` | app/page.tsx:16 | the leftmost position from `i` where six digits start; none start before it |
| `RefNormalizer.LongRunBounds` | app/page.tsx:16 | the regex fails exactly when no six digits occur; otherwise its bounds satisfy `IsFirstLongRun` |
| `RefNormalizer.FirstLongDigitRun` | app/page.tsx:16-17 | `match[1]` is the text between those bounds; no match exactly when there are no six digits in a row |
| `RefNormalizer.FirstLongRunFound` | app/page.tsx:16 | any run meeting the reference definition is the one the match returns |
| `RefNormalizer.RunEndUnique` | app/page.tsx:16 | a digit run from a given start has one maximal end (greedy `{6,}`) |
| `RefNormalizer.StartsWith` | app/page.tsx:15 | `s.startsWith(prefix)`, case-sensitive; defined by its body |
| `RefNormalizer.IsHttpLink` | app/page.tsx:15 | the input starts with `http://` or `https://`; defined by its body; its use is stated in `RefNormalizer.NormalizeRefVerbatim` and `RefNormalizer.NormalizeRefExtracts` |
| `RefNormalizer.NormalizeRef` | app/page.tsx:11-21 | `normalizeRef`; defined by its body; its properties are in `RefNormalizer.NormalizeRefEmptyIff`, `NormalizeRefVerbatim`, `NormalizeRefExtracts`, `NormalizeRefIdempotent` and `NormalizeRefSameTrim` |
| `RefNormalizer.FirstLongRunIsMaximal` | app/page.tsx:16 | the match starts a maximal run: the character before it is not a digit |
| `RefNormalizer.NormalizeRefEmptyIff` | app/page.tsx:12-13 | the reference is `""` exactly when the trimmed input is empty, that is when the input is all white space |
| `RefNormalizer.NormalizeRefVerbatim` | app/page.tsx:15-20 | an input that is not an `http://`/`https://` link, or a link without six digits in a row, gives its trimmed text unchanged |
| `RefNormalizer.NormalizeRefExtracts` | app/page.tsx:15-17 | a link with six digits in a row gives the first maximal run of at least six digits, taken from the trimmed link |
| `RefNormalizer.NormalizeRefIdempotent` | app/page.tsx:11-21 | normalising a normalised reference changes nothing |
| `RefNormalizer.NormalizeRefSameTrim` | app/page.tsx:12 | inputs with the same trim give the same reference |
| `RefNormalizer.DigitsAreBareRef` | app/page.tsx:15-20 | a non-empty digit string is kept as it is (not a link, nothing to trim) |
| `RefNormalizer.NormalizeLinkWithRun` | app/page.tsx:15-17 | a trimmed link whose first long run is `s[p..q]` normalises to `s[p..q]` |
| `RefNormalizer.NormalizeRefLinkExample` | app/page.tsx:15-17 | `"https://shop.example/p/12345678.html"` gives `"12345678"` |
| `RefNormalizer.NormalizeRefBareExample` | app/page.tsx:12-20 | `"  999 "` gives `"999"` |
| `Clipboard.FormatForClipboard` | app/page.tsx:24 | the placeholder `"Liste Shopy Mom : (vide)"` is produced exactly for the empty list |
| `Clipboard.Item` | app/src/types/item.ts:1-11 | the `items` row; the nullable columns are `Option`s; a datatype, with no contract |
| `Clipboard.IsPresent` | app/page.tsx:28-32 | JavaScript truthiness of a nullable string: neither `null` nor `""`; defined by its body; its effect is stated in `Clipboard.EmptyFieldIsOmitted` |
| `Clipboard.Parts` | app/page.tsx:26-28 | the `parts` array; defined by its body; its properties are in `Clipboard.PartsLayout` |
| `Clipboard.OptionalDetail` | app/page.tsx:30-32 | one `if (o) details.push(tag + o)`; defined by its body; its properties are in `Clipboard.DetailsLayout` |
| `Clipboard.Details` | app/page.tsx:29-33 | the `details` array; defined by its body; its properties are in `Clipboard.DetailsLayout` |
| `Clipboard.ItemLine` | app/page.tsx:26-34 | the line one item is shared as; defined by its body; its properties are in `Clipboard.ItemLineLayout`, `Clipboard.EmptyFieldIsOmitted` and `Clipboard.ItemLineIsOneLine` |
| `Clipboard.ItemLines` | app/page.tsx:25-35 | one line per item, line `k` being the line of item `k` |
| `Clipboard.ItemLineLayout` | app/page.tsx:26-34 | an item line is `"• " + ref`, then `" — " + name` only when the name is present, then `" ("`, the present colour, size and other details in that order, each followed by `" • "`, then `"x" + quantity` and `")"` |
| `Clipboard.PartsLayout` | app/page.tsx:26-28 | `parts.join(" ")` is the bullet and reference, then the dash and name only when the name is present |
| `Clipboard.DetailsLayout` | app/page.tsx:29-33 | `details.join(" • ")` is the present details, each followed by the separator, then the quantity |
| `Clipboard.JoinSnoc` | app/page.tsx:34 | joining a list with a last element puts the separator after every element before it |
| `Clipboard.TerminatedAppend` | app/page.tsx:34 | the separator-terminated concatenation distributes over list concatenation |
| `Clipboard.EmptyFieldIsOmitted` | app/page.tsx:28-32 | a name, colour, size or other that is `""` is shared exactly as a `null` one |
| `Clipboard.ItemLineIsOneLine` | app/page.tsx:26-34 | an item line built from fields without line feeds has no line feed |
| `Clipboard.FormatForClipboardLines` | app/page.tsx:37 | a non-empty share text splits into the header, a blank line and one line per item in the order of the items, two lines more than there are items |
| `Clipboard.FormatForClipboardJoin` | app/page.tsx:37 | a non-empty share text is the `"\n"`-join of the header, an empty line and the item lines, in that order |
| `Clipboard.ItemLineExample` | app/page.tsx:26-34 | ref `999`, name `Robe`, size `M`, quantity 2 give `"• 999 — Robe (Taille: M • x2)"` |
| `Session.ListCodeFrom` | app/page.tsx:9 | a non-empty configured list code wins, otherwise `"shopmom-x"`; the code is never empty |
| `Session.TrimOrNull` | app/page.tsx:118 | `s.trim()`, or null when that is empty, is null exactly for blank input, else the trimmed text; it is shared exactly when the input is not blank |
| `Session.PayloadWellFormed` | app/page.tsx:115-123 | an accepted form gives a payload with the session's list code, a non-empty ref, quantity at least 1, and optional columns that are null or non-empty trimmed text |
| `Session.Payload` | app/page.tsx:115-123 | the payload object: list code, ref, the four nullable text columns and the quantity; a datatype, with no contract; built by `Session.PayloadOf` |
| `Session.Form` | app/page.tsx:46-52 | the form's inputs: ref or link, name, colour, size, quantity and other; a datatype, with no contract |
| `Session.PayloadOf` | app/page.tsx:115-123 | the insert payload built from the list code, the normalised ref and the form; defined by its body; its properties are in `Session.PayloadWellFormed` |
| `Session.RowOf` | app/page.tsx:125 | the row the store creates from a payload with the id and timestamp it assigns; defined by its body; its use is stated in `Session.RemoteStore.Insert` and `Session.SelectAfterInsert` |
| `Session.InsertWellFormed` | app/page.tsx:125 | inserting a row with a reference and a quantity of at least one keeps every stored row so |
| `Session.Keep` | app/page.tsx:69 | an equality filter keeps exactly the rows it accepts |
| `Session.RowFilter` | app/page.tsx:69 | the `.eq(...)` filters of the select (app/page.tsx:69) and of the two deletes (app/page.tsx:148 and 166); a datatype, with no contract; used through `Session.Keep` |
| `Session.Accepts` | app/page.tsx:69 | whether a row matches a filter: equal list code, other list code, or other id; defined by its body; used in `Session.Keep` |
| `Session.OfList` | app/page.tsx:69 | `.eq("list_code", code)`: the rows of one list; defined by its body; its properties are in `Session.Selected` and `Session.SelectAfterInsert` |
| `Session.KeepNone` | app/page.tsx:69 | a filter accepting no row keeps nothing |
| `Session.KeepWellFormed` | app/page.tsx:148 | deleting by a filter keeps the schema invariant of the remaining rows |
| `Session.KeepAppend` | app/page.tsx:66-70 | filtering distributes over concatenation, so kept rows stay in their order and multiplicity |
| `Session.NewestFirstSnoc` | app/page.tsx:70 | the newest row comes first, ahead of the older rows in their reverse order |
| `Session.NewestFirst` | app/page.tsx:70 | the rows in reverse insertion order: row `k` of the result is row `n-1-k` of the input |
| `Session.Selected` | app/page.tsx:66-70 | the reply to the select holds exactly the rows carrying the list code |
| `Session.SelectedWellFormed` | app/page.tsx:66-70 | the selected rows keep the schema invariant |
| `Session.SelectAfterDeleteAll` | app/page.tsx:166 | after the list's rows are deleted, selecting the list gives the empty list |
| `Session.SelectAfterDeleteOne` | app/page.tsx:148 | after a delete by id, no selected row has that id |
| `Session.SelectAfterInsert` | app/page.tsx:66-70 | after an insert, the new row is the first row selected for its list, followed by the list's earlier rows in their previous order; other lists select as before |
| `Session.RemoteStore.Insert` | app/page.tsx:125 | the insert is logged; on success the store gains the row made of the payload, on failure nothing changes |
| `Session.RemoteStore.SelectAll` | app/page.tsx:66-70 | the select is logged and changes no row; it answers the list's rows, newest first, or an error |
| `Session.RemoteStore.DeleteOne` | app/page.tsx:148 | the delete is logged; on success exactly the rows with other ids remain |
| `Session.RemoteStore.DeleteAll` | app/page.tsx:166 | the delete is logged; on success exactly the rows of other lists remain |
| `Session.Session.constructor` | app/page.tsx:41-54 | the list code is `ListCodeFrom` of the configured code (app/page.tsx:9), never empty; the page starts loading, not busy, without notification, with an empty list and an empty form with quantity 1 |
| `Session.Session.ClipboardPreview` | app/page.tsx:55 | the `useMemo` preview, `formatForClipboard(items)`; defined by its body; its properties are in `Clipboard.FormatForClipboard` and `Clipboard.FormatForClipboardLines` |
| `Session.Session.CurrentForm` | app/page.tsx:46-52 | the form state as one `Form` value; defined by its body; used in the contracts of `Session.Session.ClearForm`, `AddItem` and `InsertAndReload` |
| `Session.Session.ClearForm` | app/page.tsx:134-139 | the form is reset to empty strings and quantity 1, and nothing else changes |
| `Session.Session.FetchItems` | app/page.tsx:64-81 | one select is issued and `loading` ends false; on failure the old list is kept and the load error shown, on success the list becomes the store's rows of the list code |
| `Session.Session.AddItem` | app/page.tsx:102-144 | an empty normalised ref or a quantity below 1 shows its message and issues no call, leaving form, list and `busy` untouched; otherwise exactly one insert of the well-formed payload is sent. On failure the form is kept; on success the form is reset and the list reloaded. `busy` is false after every path that raised it |
| `Session.Session.InsertAndReload` | app/page.tsx:113-143 | after validation: `busy` is raised, exactly one insert of the payload is sent; a failed insert keeps form and list and shows the error; a successful one appends the row, resets the form, shows the confirmation and reloads; `busy` ends false |
| `Session.Session.DeleteItem` | app/page.tsx:146-158 | the delete by id is always sent; only a successful one reloads the list; the form is never touched and `busy` ends false |
| `Session.Session.ClearList` | app/page.tsx:160-176 | an empty list shows "already empty" with no store call and `busy` untouched; otherwise the delete of the list is sent, on success the list reloads to empty, and `busy` ends false |
| `Session.ClearListTwice` | app/page.tsx:160-176 | a successful clear followed by a second one leaves the list empty; the second reports "already empty" and sends nothing |

## Left out

- `handlePasteFromClipboard` and `handleCopyAll` (app/page.tsx:88-100, 178-185) call the browser clipboard, which can fail on permissions. They are not modelled. The text that copy would write, `Session.Session.ClipboardPreview`, is modelled.
- The notification's 2200 ms auto-dismiss (app/page.tsx:57-62) is timer scheduling; `toast` holds the last message set.
- The quantity input's `Math.max(1, Number(...))` parsing (app/page.tsx:240) is JavaScript number coercion. `quantity` is an unbounded `int` field.
- Text.IntToDecimal: matches `${n}` only for integers of magnitude at most 2^53 - 1 (`Number.MAX_SAFE_INTEGER`). Beyond that a JavaScript number prints the shortest digits that read back to it, padded with zeros (`${2**60}` is `"1152921504606847000"`), and from 10^21 on it prints in exponent notation. Non-integral numbers are not modelled either. Quantities are unbounded integers.
- `await` interleaving is not modelled; each handler runs as one atomic step. So the window in which `busy` is true and the buttons are disabled cannot be observed. The model states only that `busy` is false again after each path that raised it.
- The store's `created_at` timestamps are not compared. `order("created_at", descending)` is modelled as reverse insertion order, which assumes the store stamps later inserts later. Writes from other sessions are not modelled.
- Store error details and `console.error` logging are not modelled; the model keeps only each operation's failure message.
- JSX rendering, the detail badges, `app/src/components/Header.tsx`, `app/src/components/Footer.tsx` (its clock) and `app/layout.tsx` are markup and are not part of this model.
- Strings are sequences of Unicode code points, not UTF-16 code units. This does not change `trim`: every white-space character it removes is a single code unit. The multi-unit emoji are kept as opaque constants.
- `Clipboard.FormatForClipboardLines`: the line count is stated only for items whose text fields hold no line feed, because a line feed inside a field would split that item's line.
