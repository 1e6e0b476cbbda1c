/**
 The backing store of the token protocol: an org's token state is read from some row of the
 org, and written back to the one row it came from.
 */
module TokenManager {
  import opened TokenProtocol
  import opened Wrappers

  class Manager {
    var table: map<RowKey, TokenRow>

    constructor (table: map<RowKey, TokenRow>)
      ensures this.table == table
    {
      this.table := table;
    }

    /** The first row the select gives, in whatever order the database gives them. */
    method LoadTokenState(lookupKey: string) returns (r: Result<TokenState, ()>)
      ensures r.Ok? ==>
        && r.value.key in table && r.value.key.org == lookupKey && r.value.key.adapter == "pco"
        && r.value == TokenState(table[r.value.key], r.value.key, lookupKey)
      ensures r.Err? ==> forall k :: k in table ==> k.org != lookupKey || k.adapter != "pco"
    {
      var rows := map k | k in table && k.org == lookupKey && k.adapter == ADAPTER :: table[k];
      if rows == map[] {
        assert forall k :: CanLoad(table, lookupKey, k) ==> k in rows;
        assert forall k :: k in table && k.org == lookupKey && k.adapter == "pco" ==> CanLoad(table, lookupKey, k);
        return Err(());
      }
      var key :| key in rows;
      r := Ok(TokenState(rows[key], key, lookupKey));
    }

    /** An update by org, adapter and user; it changes the row the state was loaded from and no other. */
    method SaveTokenState(state: TokenState)
      modifies this
      ensures table == Save(old(table), state)
      ensures table.Keys == old(table).Keys
      ensures state.key in old(table) ==> table[state.key] == state.row
      ensures forall k :: k in table && k != state.key ==> table[k] == old(table)[k]
    {
      table := map k | k in table ::
        if k.org == state.key.org && k.adapter == state.key.adapter && k.user == state.key.user then state.row
          else table[k];
      assert table == Save(old(table), state);
    }
  }
}
