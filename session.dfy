/**
 * The page controller of the wishlist: the form, the mirrored item list,
 * the `busy` flag and the notification, and the handlers that add an item,
 * delete one and clear the list. The hosted table is a `RemoteStore` whose
 * every call succeeds or fails as an oracle argument decides; it records
 * the requests it receives, so that contracts can say which calls a
 * handler makes.
 */
module Session {
  import opened Wrappers
  import opened Text
  import opened RefNormalizer
  import opened Clipboard

  /** The record handed to `insert`. */
  datatype Payload = Payload(
    listCode: string,
    ref: string,
    name: Option<string>,
    color: Option<string>,
    size: Option<string>,
    quantity: int,
    other: Option<string>)

  /** A call the page makes on the store. */
  datatype Request =
    | InsertRow(payload: Payload)
    | SelectList(listCode: string)
    | DeleteById(id: string)
    | DeleteByList(listCode: string)

  /** The list code used when the environment gives none. */
  const DefaultListCode: string := "shopmom-x"

  /** `process.env.NEXT_PUBLIC_LIST_CODE || "shopmom-x"`: a configured code
      that is not empty wins; the session never runs with an empty code. */
  function ListCodeFrom(configured: Option<string>): (code: string)
    ensures code != ""
    ensures configured.Some? && configured.value != "" ==> code == configured.value
    ensures configured.None? || configured.value == "" ==> code == DefaultListCode
  {
    if configured.Some? && configured.value != "" then configured.value else DefaultListCode
  }

  /** The values of the form's inputs. */
  datatype Form = Form(
    refOrLink: string,
    name: string,
    color: string,
    size: string,
    quantity: int,
    other: string)

  /** The form as it starts and as a successful add leaves it. */
  const EmptyForm: Form := Form("", "", "", "", 1, "")

  const LoadFailed: string := "Erreur: impossible de charger la liste."
  const RefMissing: string := "Ajoute une r\U{E9}f\U{E9}rence ou un lien."
  const QuantityInvalid: string := "Quantit\U{E9} invalide."
  const AddFailed: string := "Erreur: ajout impossible (RLS ou table)."
  const Added: string := "Article ajout\U{E9} \U{2705}"
  const DeleteFailed: string := "Erreur: suppression impossible."
  const Deleted: string := "Supprim\U{E9} \U{1F5D1}\U{FE0F}"
  const AlreadyEmpty: string := "Liste d\U{E9}j\U{E0} vide."
  const ClearFailed: string := "Erreur: impossible de vider la liste."
  const Cleared: string := "Liste vid\U{E9}e \U{2705}"

  /** `s.trim() || null`: the trimmed text, or null when nothing but white
      space was typed. The result is never `Some("")`, so it is shared
      exactly when something other than white space was typed. */
  function TrimOrNull(s: string): (r: Option<string>)
    ensures r.None? <==> AllWhitespace(s)
    ensures r.Some? ==> r.value == Trim(s)
    ensures IsPresent(r) <==> !AllWhitespace(s)
  {
    TrimEmptyIff(s);
    var t := Trim(s);
    if t == "" then None else Some(t)
  }

  /** The payload `handleAddItem` builds from a normalised reference and the form. */
  function PayloadOf(listCode: string, ref: string, f: Form): Payload {
    Payload(listCode, ref, TrimOrNull(f.name), TrimOrNull(f.color), TrimOrNull(f.size),
      f.quantity, TrimOrNull(f.other))
  }

  /** An optional column is null or a non-empty text with no white space at
      either end. */
  ghost predicate IsCleanOptional(o: Option<string>) {
    o.Some? ==> o.value != "" && HasTrimmedEnds(o.value)
  }

  /** What every payload the page sends satisfies. */
  ghost predicate IsWellFormedPayload(p: Payload, listCode: string) {
    p.listCode == listCode && p.ref != "" && p.quantity >= 1
    && IsCleanOptional(p.name) && IsCleanOptional(p.color)
    && IsCleanOptional(p.size) && IsCleanOptional(p.other)
  }

  /** The row the store creates for a payload, with the identifier and
      timestamp it assigns. */
  function RowOf(p: Payload, id: string, createdAt: string): Item {
    Item(id, p.listCode, p.ref, p.name, p.color, p.size, p.quantity, p.other, createdAt)
  }

  /** The schema invariant of stored rows: a reference and a quantity of at
      least one. */
  ghost predicate RowsWellFormed(rows: seq<Item>) {
    forall k :: 0 <= k < |rows| ==> rows[k].ref != "" && rows[k].quantity >= 1
  }

  /** The equality filters the page applies to rows: `eq("list_code", c)`
      keeps a list, and a delete keeps what its filter does not match. */
  datatype RowFilter = ListIs(listCode: string) | ListIsNot(listCode: string) | IdIsNot(id: string)

  predicate Accepts(f: RowFilter, x: Item) {
    match f
    case ListIs(c) => x.listCode == c
    case ListIsNot(c) => x.listCode != c
    case IdIsNot(id) => x.id != id
  }

  /** The rows `f` accepts, in their order. */
  function Keep(rows: seq<Item>, f: RowFilter): (r: seq<Item>)
    ensures |r| <= |rows|
    ensures forall x :: x in r <==> x in rows && Accepts(f, x)
  {
    if rows == [] then []
    else (if Accepts(f, rows[0]) then [rows[0]] else []) + Keep(rows[1..], f)
  }

  /** The rows of one list. */
  function OfList(rows: seq<Item>, listCode: string): seq<Item> {
    Keep(rows, ListIs(listCode))
  }

  /** The rows in reverse insertion order, the store's `created_at`
      descending order. */
  function NewestFirst(rows: seq<Item>): (r: seq<Item>)
    ensures |r| == |rows|
    ensures forall k :: 0 <= k < |rows| ==> r[k] == rows[|rows| - 1 - k]
  {
    if rows == [] then [] else [rows[|rows| - 1]] + NewestFirst(rows[..|rows| - 1])
  }

  /** A reply to `select`: the rows of the list, newest first. */
  function Selected(rows: seq<Item>, listCode: string): (r: seq<Item>)
    ensures forall x :: x in r <==> x in rows && x.listCode == listCode
  {
    var mine := OfList(rows, listCode);
    assert forall x :: x in NewestFirst(mine) ==> x in mine;
    assert forall k :: 0 <= k < |mine| ==> NewestFirst(mine)[|mine| - 1 - k] == mine[k];
    NewestFirst(mine)
  }

  /** Keeping some rows keeps the schema invariant. */
  lemma KeepWellFormed(rows: seq<Item>, f: RowFilter)
    requires RowsWellFormed(rows)
    ensures RowsWellFormed(Keep(rows, f))
  {
    var r := Keep(rows, f);
    forall k | 0 <= k < |r| ensures r[k].ref != "" && r[k].quantity >= 1 {
      assert r[k] in rows;
    }
  }

  /** Once the rows of a list are deleted, selecting that list gives nothing. */
  lemma SelectAfterDeleteAll(rows: seq<Item>, listCode: string)
    ensures Selected(Keep(rows, ListIsNot(listCode)), listCode) == []
  {
    var rest := Keep(rows, ListIsNot(listCode));
    forall k | 0 <= k < |rest| ensures !Accepts(ListIs(listCode), rest[k]) {
      assert rest[k] in rest;
    }
    KeepNone(rest, ListIs(listCode));
  }

  /** A filter that accepts no row keeps nothing. */
  lemma {:induction false} KeepNone(rows: seq<Item>, f: RowFilter)
    requires forall k :: 0 <= k < |rows| ==> !Accepts(f, rows[k])
    ensures Keep(rows, f) == []
  {
    if rows != [] {
      KeepNone(rows[1..], f);
    }
  }

  /** Filtering distributes over concatenation, so the kept rows stay in
      their order and with their multiplicity. */
  lemma {:induction false} KeepAppend(xs: seq<Item>, ys: seq<Item>, f: RowFilter)
    ensures Keep(xs + ys, f) == Keep(xs, f) + Keep(ys, f)
  {
    if xs == [] {
      assert xs + ys == ys;
    } else {
      assert (xs + ys)[1..] == xs[1..] + ys;
      KeepAppend(xs[1..], ys, f);
    }
  }

  /** Reversing a sequence with one more row puts that row first. */
  lemma NewestFirstSnoc(rows: seq<Item>, x: Item)
    ensures NewestFirst(rows + [x]) == [x] + NewestFirst(rows)
  {
    assert (rows + [x])[..|rows|] == rows;
  }

  /** A row inserted into a list is the first row selected for that list,
      ahead of the list's earlier rows in their previous order; other lists
      are selected as before. */
  lemma SelectAfterInsert(rows: seq<Item>, x: Item, listCode: string)
    ensures Selected(rows + [x], listCode) ==
      (if x.listCode == listCode then [x] else []) + Selected(rows, listCode)
  {
    KeepAppend(rows, [x], ListIs(listCode));
    assert Keep([x], ListIs(listCode)) == if x.listCode == listCode then [x] else [];
    if x.listCode == listCode {
      NewestFirstSnoc(OfList(rows, listCode), x);
    } else {
      assert OfList(rows, listCode) + [] == OfList(rows, listCode);
    }
  }

  /** Once a row is deleted by its identifier, no row selected has it. */
  lemma SelectAfterDeleteOne(rows: seq<Item>, id: string, listCode: string)
    ensures forall x :: x in Selected(Keep(rows, IdIsNot(id)), listCode) ==> x.id != id
  {
  }

  /** The hosted `items` table. */
  class RemoteStore {
    var rows: seq<Item>
    ghost var log: seq<Request>

    constructor (initial: seq<Item>)
      ensures rows == initial && log == []
    {
      rows := initial;
      log := [];
    }

    /** `insert(p)`; on success the store adds the row it makes of `p`. */
    method Insert(p: Payload, fails: bool, id: string, createdAt: string) returns (ok: bool)
      modifies this
      ensures ok == !fails
      ensures log == old(log) + [InsertRow(p)]
      ensures rows == if ok then old(rows) + [RowOf(p, id, createdAt)] else old(rows)
    {
      log := log + [InsertRow(p)];
      ok := !fails;
      if ok {
        rows := rows + [RowOf(p, id, createdAt)];
      }
    }

    /** `select("*").eq("list_code", listCode).order("created_at", descending)`. */
    method SelectAll(listCode: string, fails: bool) returns (r: Option<seq<Item>>)
      modifies this
      ensures log == old(log) + [SelectList(listCode)] && rows == old(rows)
      ensures r == if fails then None else Some(Selected(rows, listCode))
    {
      log := log + [SelectList(listCode)];
      r := if fails then None else Some(Selected(rows, listCode));
    }

    /** `delete().eq("id", id)`. */
    method DeleteOne(id: string, fails: bool) returns (ok: bool)
      modifies this
      ensures ok == !fails
      ensures log == old(log) + [DeleteById(id)]
      ensures rows == if ok then Keep(old(rows), IdIsNot(id)) else old(rows)
    {
      log := log + [DeleteById(id)];
      ok := !fails;
      if ok {
        rows := Keep(rows, IdIsNot(id));
      }
    }

    /** `delete().eq("list_code", listCode)`. */
    method DeleteAll(listCode: string, fails: bool) returns (ok: bool)
      modifies this
      ensures ok == !fails
      ensures log == old(log) + [DeleteByList(listCode)]
      ensures rows == if ok then Keep(old(rows), ListIsNot(listCode)) else old(rows)
    {
      log := log + [DeleteByList(listCode)];
      ok := !fails;
      if ok {
        rows := Keep(rows, ListIsNot(listCode));
      }
    }
  }

  /** The state of the page. */
  class Session {
    const listCode: string
    var loading: bool
    var busy: bool
    var toast: Option<string>
    var refOrLink: string
    var name: string
    var color: string
    var size: string
    var quantity: int
    var other: string
    var items: seq<Item>

    /** The form's inputs as one value. */
    function CurrentForm(): Form
      reads this
    {
      Form(refOrLink, name, color, size, quantity, other)
    }

    /** The page as first rendered, before its initial load, for the list
        code the environment configures (or the default). */
    constructor (configured: Option<string>)
      ensures listCode == ListCodeFrom(configured) && listCode != ""
      ensures loading && !busy && toast == None && items == []
      ensures CurrentForm() == EmptyForm
    {
      listCode := ListCodeFrom(configured);
      loading, busy, toast := true, false, None;
      refOrLink, name, color, size, quantity, other := "", "", "", "", 1, "";
      items := [];
    }

    /** The text the preview shows and "copy" shares. */
    function ClipboardPreview(): string
      reads this
    {
      FormatForClipboard(items)
    }

    method ClearForm()
      modifies this
      ensures CurrentForm() == EmptyForm
      ensures loading == old(loading) && busy == old(busy) && toast == old(toast)
      ensures items == old(items)
    {
      refOrLink, name, color, size, other := "", "", "", "", "";
      quantity := 1;
    }

    /** `fetchItems()`: reload the list; on failure keep the old list and
        say so. */
    method FetchItems(store: RemoteStore, fails: bool)
      modifies this, store
      ensures !loading && busy == old(busy) && CurrentForm() == old(CurrentForm())
      ensures store.rows == old(store.rows)
      ensures store.log == old(store.log) + [SelectList(listCode)]
      ensures fails ==> items == old(items) && toast == Some(LoadFailed)
      ensures !fails ==> items == Selected(store.rows, listCode) && toast == old(toast)
      ensures RowsWellFormed(store.rows) && RowsWellFormed(old(items)) ==> RowsWellFormed(items)
    {
      loading := true;
      var r := store.SelectAll(listCode, fails);
      if r.None? {
        toast := Some(LoadFailed);
        loading := false;
        return;
      }
      if RowsWellFormed(store.rows) {
        SelectedWellFormed(store.rows, listCode);
      }
      items := r.value;
      loading := false;
    }

    /** `handleAddItem()`. A missing reference or a quantity below one is
        refused before any call; otherwise the payload is inserted, and only
        a successful insert resets the form and reloads the list. */
    method AddItem(store: RemoteStore, insertFails: bool, fetchFails: bool,
                   id: string, createdAt: string)
      modifies this, store
      ensures var ref := NormalizeRef(old(refOrLink));
        if ref == "" || old(quantity) < 1 then
          && toast == Some(if ref == "" then RefMissing else QuantityInvalid)
          && store.log == old(store.log) && store.rows == old(store.rows)
          && CurrentForm() == old(CurrentForm()) && items == old(items)
          && busy == old(busy) && loading == old(loading)
        else
          var p := PayloadOf(listCode, ref, old(CurrentForm()));
          && IsWellFormedPayload(p, listCode)
          && !busy
          && (if insertFails then
                && toast == Some(AddFailed)
                && store.log == old(store.log) + [InsertRow(p)] && store.rows == old(store.rows)
                && CurrentForm() == old(CurrentForm()) && items == old(items)
                && loading == old(loading)
              else
                && store.log == old(store.log) + [InsertRow(p), SelectList(listCode)]
                && store.rows == old(store.rows) + [RowOf(p, id, createdAt)]
                && CurrentForm() == EmptyForm && !loading
                && toast == Some(if fetchFails then LoadFailed else Added)
                && items == if fetchFails then old(items) else Selected(store.rows, listCode))
      ensures old(RowsWellFormed(store.rows)) ==> RowsWellFormed(store.rows)
      ensures old(RowsWellFormed(store.rows)) && old(RowsWellFormed(items)) ==> RowsWellFormed(items)
    {
      var ref := NormalizeRef(refOrLink);
      if ref == "" {
        toast := Some(RefMissing);
        return;
      }
      if quantity < 1 {
        toast := Some(QuantityInvalid);
        return;
      }

      var p := PayloadOf(listCode, ref, CurrentForm());
      PayloadWellFormed(listCode, ref, CurrentForm());
      InsertAndReload(store, p, insertFails, fetchFails, id, createdAt);
    }

    /** The part of `handleAddItem()` after validation: raise `busy`, insert
        the payload and, only on success, reset the form and reload. */
    method InsertAndReload(store: RemoteStore, p: Payload, insertFails: bool, fetchFails: bool,
                           id: string, createdAt: string)
      requires IsWellFormedPayload(p, listCode)
      modifies this, store
      ensures !busy
      ensures if insertFails then
          && toast == Some(AddFailed)
          && store.log == old(store.log) + [InsertRow(p)] && store.rows == old(store.rows)
          && CurrentForm() == old(CurrentForm()) && items == old(items)
          && loading == old(loading)
        else
          && store.log == old(store.log) + [InsertRow(p), SelectList(listCode)]
          && store.rows == old(store.rows) + [RowOf(p, id, createdAt)]
          && CurrentForm() == EmptyForm && !loading
          && toast == Some(if fetchFails then LoadFailed else Added)
          && items == if fetchFails then old(items) else Selected(store.rows, listCode)
      ensures old(RowsWellFormed(store.rows)) ==> RowsWellFormed(store.rows)
      ensures old(RowsWellFormed(store.rows)) && old(RowsWellFormed(items)) ==> RowsWellFormed(items)
    {
      busy := true;
      var ok := store.Insert(p, insertFails, id, createdAt);
      if !ok {
        toast := Some(AddFailed);
        busy := false;
        return;
      }
      if old(RowsWellFormed(store.rows)) {
        InsertWellFormed(old(store.rows), p, id, createdAt);
      }

      ClearForm();
      toast := Some(Added);
      FetchItems(store, fetchFails);
      busy := false;
    }

    /** `handleDeleteItem(id)`: the delete is sent whether or not the list
        holds `id`; only a successful delete reloads the list. */
    method DeleteItem(store: RemoteStore, id: string, deleteFails: bool, fetchFails: bool)
      modifies this, store
      ensures !busy && CurrentForm() == old(CurrentForm())
      ensures if deleteFails then
          && toast == Some(DeleteFailed)
          && store.log == old(store.log) + [DeleteById(id)] && store.rows == old(store.rows)
          && items == old(items) && loading == old(loading)
        else
          && store.log == old(store.log) + [DeleteById(id), SelectList(listCode)]
          && store.rows == Keep(old(store.rows), IdIsNot(id))
          && toast == Some(if fetchFails then LoadFailed else Deleted)
          && items == (if fetchFails then old(items) else Selected(store.rows, listCode))
          && !loading
      ensures old(RowsWellFormed(store.rows)) ==> RowsWellFormed(store.rows)
      ensures old(RowsWellFormed(store.rows)) && old(RowsWellFormed(items)) ==> RowsWellFormed(items)
    {
      busy := true;
      var ok := store.DeleteOne(id, deleteFails);
      if !ok {
        toast := Some(DeleteFailed);
        busy := false;
        return;
      }
      if old(RowsWellFormed(store.rows)) {
        KeepWellFormed(old(store.rows), IdIsNot(id));
      }
      toast := Some(Deleted);
      FetchItems(store, fetchFails);
      busy := false;
    }

    /** `handleClearList()`: a list already known to be empty is not sent
        to the store and `busy` is never raised; otherwise every row of the
        list is deleted and, on success, the list reloaded. */
    method ClearList(store: RemoteStore, clearFails: bool, fetchFails: bool)
      modifies this, store
      ensures CurrentForm() == old(CurrentForm())
      ensures if old(items) == [] then
          && toast == Some(AlreadyEmpty)
          && store.log == old(store.log) && store.rows == old(store.rows)
          && items == old(items) && busy == old(busy) && loading == old(loading)
        else
          && !busy
          && if clearFails then
               && toast == Some(ClearFailed)
               && store.log == old(store.log) + [DeleteByList(listCode)]
               && store.rows == old(store.rows)
               && items == old(items) && loading == old(loading)
             else
               && store.log == old(store.log) + [DeleteByList(listCode), SelectList(listCode)]
               && store.rows == Keep(old(store.rows), ListIsNot(listCode))
               && toast == Some(if fetchFails then LoadFailed else Cleared)
               && items == (if fetchFails then old(items) else [])
               && !loading
      ensures old(RowsWellFormed(store.rows)) ==> RowsWellFormed(store.rows)
      ensures old(RowsWellFormed(items)) ==> RowsWellFormed(items)
    {
      if |items| == 0 {
        toast := Some(AlreadyEmpty);
        return;
      }
      busy := true;
      var ok := store.DeleteAll(listCode, clearFails);
      if !ok {
        toast := Some(ClearFailed);
        busy := false;
        return;
      }
      if old(RowsWellFormed(store.rows)) {
        KeepWellFormed(old(store.rows), ListIsNot(listCode));
      }
      SelectAfterDeleteAll(old(store.rows), listCode);
      toast := Some(Cleared);
      FetchItems(store, fetchFails);
      busy := false;
    }
  }

  /** The selected rows keep the schema invariant. */
  lemma SelectedWellFormed(rows: seq<Item>, listCode: string)
    requires RowsWellFormed(rows)
    ensures RowsWellFormed(Selected(rows, listCode))
  {
    KeepWellFormed(rows, ListIs(listCode));
    var mine := OfList(rows, listCode);
    var r := Selected(rows, listCode);
    forall k | 0 <= k < |r| ensures r[k].ref != "" && r[k].quantity >= 1 {
      assert r[k] == mine[|mine| - 1 - k];
    }
  }

  /** A successful insert of a payload with a reference and a quantity of
      at least one keeps the schema invariant. */
  lemma InsertWellFormed(rows: seq<Item>, p: Payload, id: string, createdAt: string)
    requires RowsWellFormed(rows) && p.ref != "" && p.quantity >= 1
    ensures RowsWellFormed(rows + [RowOf(p, id, createdAt)])
  {
    var r := rows + [RowOf(p, id, createdAt)];
    forall k | 0 <= k < |r| ensures r[k].ref != "" && r[k].quantity >= 1 {
      if k < |rows| { assert r[k] == rows[k]; }
    }
  }

  /** A payload built from an accepted form is well formed: its list code,
      a non-empty reference, a quantity of at least one, and optional
      columns that are trimmed text or null, never `""`. */
  lemma PayloadWellFormed(listCode: string, ref: string, f: Form)
    requires ref != "" && f.quantity >= 1
    ensures IsWellFormedPayload(PayloadOf(listCode, ref, f), listCode)
  {
    TrimmedEnds(f.name);
    TrimmedEnds(f.color);
    TrimmedEnds(f.size);
    TrimmedEnds(f.other);
  }

  /** A trim has no white space at either end. */
  lemma TrimmedEnds(s: string)
    ensures HasTrimmedEnds(Trim(s))
  {
    var t := Trim(s);
    var i, j :| 0 <= i <= j <= |s| && t == s[i..j]
      && AllWhitespace(s[..i]) && AllWhitespace(s[j..]) && HasTrimmedEnds(t);
  }

  /** Clearing twice: after a clear that succeeded and reloaded, a second
      clear finds the list empty and calls nothing. */
  method ClearListTwice(s: Session, store: RemoteStore)
    requires s.items != []
    modifies s, store
    ensures s.items == [] && s.toast == Some(AlreadyEmpty) && !s.busy
    ensures store.log == old(store.log) + [DeleteByList(s.listCode), SelectList(s.listCode)]
  {
    s.ClearList(store, false, false);
    s.ClearList(store, false, false);
  }
}
