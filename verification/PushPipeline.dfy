/**
 From pushed mutations to one group of operations per table: custom mutations are converted to
 CRUD operations, CRUD mutations contribute the operations of their first argument, and all
 are grouped by entity name.
 */
module PushPipeline {
  import opened Seqs
  import opened Strings
  import opened Values
  import opened Wrappers

  datatype OpKind = Insert | Update | Upsert | Delete

  datatype CrudOp = CrudOp(kind: OpKind, table: string, primaryKey: map<string, Value>, source: string,
    value: map<string, Value>)

  datatype CustomMutation = CustomMutation(name: string, args: seq<Value>, client: string, id: int, timestamp: int)

  /** A CRUD mutation; its argument list is a tuple of one list of operations, or empty. */
  datatype CrudMutation = CrudMutation(args: seq<seq<CrudOp>>, client: string, id: int, timestamp: int)

  datatype Mutation = Crud(crud: CrudMutation) | Custom(custom: CustomMutation)

  datatype Item = Item(entityName: string, mutation: CrudMutation, op: CrudOp)

  datatype ConversionError = InvalidName | InvalidData | Unsupported

  // ----- converting one custom mutation

  function KindOf(operation: string): (k: Option<OpKind>) {
    if operation == "update" then Some(Update)
    else if operation == "create" || operation == "insert" then Some(Insert)
    else if operation == "delete" then Some(Delete)
    else if operation == "upsert" then Some(Upsert)
    else None
  }

  function ConvertItem(
    m: CustomMutation, table: string, operation: string, item: Value): (r: Result<Item, ConversionError>)
  {
    match item
    case Object(record) =>
      if "id" !in record || !record["id"].Str? then Err(InvalidData)
      else
        var primaryKey := map["id" := record["id"]];
        (match KindOf(operation)
         case None => Err(Unsupported)
         case Some(kind) =>
           var op := CrudOp(kind, table, primaryKey, "internal", if kind.Delete? then primaryKey else record);
           Ok(Item(table, CrudMutation([[op]], m.client, m.id, m.timestamp), op)))
    // a list is an object too, but has no property "id"
    case _ => Err(InvalidData)
  }

  /** Effect.forEach: the items in order, stopping at the first error. */
  function ConvertItems(
    m: CustomMutation, table: string, operation: string, items: seq<Value>): (r: Result<seq<Item>, ConversionError>)
  {
    if items == [] then Ok([])
    else match ConvertItem(m, table, operation, items[0])
      case Err(e) => Err(e)
      case Ok(item) =>
        match ConvertItems(m, table, operation, items[1..])
        case Err(e) => Err(e)
        case Ok(rest) => Ok([item] + rest)
  }

  function Convert(m: CustomMutation): (r: Result<seq<Item>, ConversionError>) {
    var parts := Split(m.name, '|');
    if |parts| != 2 || parts[0] == "" || parts[1] == "" then Err(InvalidName)
    else if m.args == [] || !m.args[0].List? then Err(InvalidData)
    else ConvertItems(m, parts[0], parts[1], m.args[0].items)
  }

  /** The item can become an operation: an object with a string id, and an operation that is known. */
  predicate Convertible(operation: string, item: Value) {
    && item.Object? && "id" in item.fields && item.fields["id"].Str?
    && operation in {"update", "create", "insert", "delete", "upsert"}
  }

  /** What each name of an operation stands for. */
  predicate Names(operation: string, kind: OpKind) {
    match kind
    case Insert => operation == "create" || operation == "insert"
    case Update => operation == "update"
    case Upsert => operation == "upsert"
    case Delete => operation == "delete"
  }

  /**
   The operation made of an item: for the named table, of the named kind, with its id and data, or
   for a deletion its key.
   */
  ghost predicate IsConverted(m: CustomMutation, table: string, operation: string, item: Value, r: Item)
    requires Convertible(operation, item)
  {
    var op, primaryKey := r.op, map["id" := item.fields["id"]];
    && r.entityName == op.table == table && Names(operation, op.kind)
    && op.primaryKey == primaryKey && op.source == "internal"
    && op.value == (if operation == "delete" then primaryKey else item.fields)
    && r.mutation == CrudMutation([[op]], m.client, m.id, m.timestamp)
  }

  lemma ConvertItemIff(m: CustomMutation, table: string, operation: string, item: Value)
    ensures ConvertItem(m, table, operation, item).Ok? <==> Convertible(operation, item)
    ensures Convertible(operation, item) ==>
      IsConverted(m, table, operation, item, ConvertItem(m, table, operation, item).value)
  {
  }

  lemma {:induction false} ConvertItemsIff(m: CustomMutation, table: string, operation: string, items: seq<Value>)
    ensures var r := ConvertItems(m, table, operation, items);
      && (r.Ok? <==> forall i :: 0 <= i < |items| ==> Convertible(operation, items[i]))
      && (r.Ok? ==>
        && |r.value| == |items|
        && forall i :: 0 <= i < |items| ==> IsConverted(m, table, operation, items[i], r.value[i]))
  {
    if items != [] {
      ConvertItemIff(m, table, operation, items[0]);
      ConvertItemsIff(m, table, operation, items[1..]);
      assert forall i :: 0 < i < |items| ==> items[i] == items[1..][i - 1];
      if i :| 0 <= i < |items[1..]| && !Convertible(operation, items[1..][i]) {
        assert items[i + 1] == items[1..][i];
      }
    }
  }

  /**
   A custom mutation yields one operation per item, in order, or none at all. It yields them
   exactly when its name has two non-empty parts, its first argument is a list, and every item
   is convertible; so an unknown operation passes only with an empty list. Operation i carries
   the id of item i, goes to the table the name starts with, and holds the item's data, or for
   a deletion its key.
   */
  lemma ConversionIsAllOrNothing(m: CustomMutation)
    ensures var r, parts := Convert(m), Split(m.name, '|');
      && (r.Ok? <==>
           && |parts| == 2 && parts[0] != "" && parts[1] != ""
           && m.args != [] && m.args[0].List?
           && forall i :: 0 <= i < |m.args[0].items| ==> Convertible(parts[1], m.args[0].items[i]))
      && (r.Ok? ==>
           var items := m.args[0].items;
           && |r.value| == |items|
           && forall i :: 0 <= i < |items| ==> IsConverted(m, parts[0], parts[1], items[i], r.value[i]))
  {
    var parts := Split(m.name, '|');
    if |parts| == 2 && m.args != [] && m.args[0].List? {
      ConvertItemsIff(m, parts[0], parts[1], m.args[0].items);
    }
  }

  // ----- the whole push

  /** A mutation that cannot be converted is logged and contributes nothing. */
  function ConvertOrSkip(m: CustomMutation): (items: seq<Item>) {
    match Convert(m)
    case Ok(items) => items
    case Err(_) => []
  }

  function CrudItems(m: CrudMutation): (items: seq<Item>) {
    var ops := if m.args == [] then [] else m.args[0];
    Map((op: CrudOp) => Item(op.table, m, op), ops)
  }

  function CrudOf(ms: seq<Mutation>): (out: seq<CrudMutation>) {
    if ms == [] then [] else (if ms[0].Crud? then [ms[0].crud] else []) + CrudOf(ms[1..])
  }

  function CustomOf(ms: seq<Mutation>): (out: seq<CustomMutation>) {
    if ms == [] then [] else (if ms[0].Custom? then [ms[0].custom] else []) + CustomOf(ms[1..])
  }

  /** Every operation to push: those of the CRUD mutations, then the converted ones. */
  function AllItems(ms: seq<Mutation>): (items: seq<Item>) {
    Flatten(Map(CrudItems, CrudOf(ms))) + Flatten(Map(ConvertOrSkip, CustomOf(ms)))
  }

  function EntityWorkflows(ms: seq<Mutation>): (gs: seq<Group<Item>>) {
    GroupBy(AllItems(ms), (i: Item) => i.entityName)
  }

  /** What one mutation contributes, whatever its kind. */
  function Contribution(m: Mutation): (items: seq<Item>) {
    match m
    case Crud(c) => CrudItems(c)
    case Custom(c) => ConvertOrSkip(c)
  }

  /**
   A CRUD mutation contributes the operations of its first argument, in order, each with the mutation;
   a custom one what it converts to, and nothing if it does not.
   */
  lemma ContributionIsExact(m: Mutation)
    ensures m.Crud? && m.crud.args == [] ==> Contribution(m) == []
    ensures m.Crud? && m.crud.args != [] ==>
      && |Contribution(m)| == |m.crud.args[0]|
      && forall i :: 0 <= i < |m.crud.args[0]| ==>
           Contribution(m)[i] == Item(m.crud.args[0][i].table, m.crud, m.crud.args[0][i])
    ensures m.Custom? ==> Contribution(m) == if Convert(m.custom).Ok? then Convert(m.custom).value else []
  {
  }

  function Contributions(ms: seq<Mutation>): (items: seq<Item>) {
    if ms == [] then [] else Contribution(ms[0]) + Contributions(ms[1..])
  }

  lemma {:induction false} ItemsAreContributions(ms: seq<Mutation>)
    ensures multiset(AllItems(ms)) == multiset(Contributions(ms))
  {
    if ms != [] {
      FirstContributes(ms);
      ItemsAreContributions(ms[1..]);
    }
  }

  lemma FirstContributes(ms: seq<Mutation>)
    requires ms != []
    ensures multiset(AllItems(ms)) == multiset(Contribution(ms[0])) + multiset(AllItems(ms[1..]))
  {
    var cruds, customs := CrudOf(ms[1..]), CustomOf(ms[1..]);
    match ms[0]
    case Crud(c) =>
      assert CrudOf(ms) == [c] + cruds && CustomOf(ms) == customs;
      MapCons(CrudItems, c, cruds);
      FlattenCons(CrudItems(c), Map(CrudItems, cruds));
    case Custom(c) =>
      assert CustomOf(ms) == [c] + customs && CrudOf(ms) == cruds;
      MapCons(ConvertOrSkip, c, customs);
      FlattenCons(ConvertOrSkip(c), Map(ConvertOrSkip, customs));
  }

  lemma ItemsNameTheirTable(ms: seq<Mutation>)
    ensures forall item :: item in AllItems(ms) ==> item.entityName == item.op.table
  {
    forall item | item in AllItems(ms)
      ensures item.entityName == item.op.table
    {
      var cruds, customs := Map(CrudItems, CrudOf(ms)), Map(ConvertOrSkip, CustomOf(ms));
      if item in Flatten(cruds) {
        var i :| 0 <= i < |cruds| && item in cruds[i];
        assert cruds[i] == CrudItems(CrudOf(ms)[i]);
      } else {
        var i :| 0 <= i < |customs| && item in customs[i];
        ConversionIsAllOrNothing(CustomOf(ms)[i]);
      }
    }
  }

  /**
   The push conserves operations: the groups together hold exactly what the mutations
   contribute, each as often; every operation is in the one group named by its table; no group
   is empty; and inside a group the operations keep their relative order.
   */
  lemma PushConservesOperations(ms: seq<Mutation>)
    ensures var gs := EntityWorkflows(ms);
      && multiset(Ungroup(gs)) == multiset(Contributions(ms))
      && NoDup(Map((g: Group<Item>) => g.key, gs))
      && (forall g :: g in gs ==>
        && g.items != []
        && g.items == Filter((i: Item) => i.op.table == g.key, AllItems(ms)))
  {
    GroupByConserves(AllItems(ms), (i: Item) => i.entityName);
    ItemsAreContributions(ms);
    GroupsAreTables(ms);
  }

  lemma GroupsAreTables(ms: seq<Mutation>)
    ensures var gs := EntityWorkflows(ms);
      && NoDup(Map((g: Group<Item>) => g.key, gs))
      && (forall g :: g in gs ==>
        && g.items != []
        && g.items == Filter((i: Item) => i.op.table == g.key, AllItems(ms)))
  {
    var key := (i: Item) => i.entityName;
    GroupByIsPartition(AllItems(ms), key);
    ItemsNameTheirTable(ms);
    forall g | g in EntityWorkflows(ms)
      ensures g.items == Filter((i: Item) => i.op.table == g.key, AllItems(ms))
    {
      ItemsOfIsFilter(AllItems(ms), key, g.key, (i: Item) => i.op.table == g.key);
    }
  }
}
