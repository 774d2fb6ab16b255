/** Rows in a service's hands: mutable copies that only reach a table when they are saved. */
module Records {
  import opened Wrappers
  import opened Tables
  import opened ShopSpec

  /** A loaded row; services assign its fields in place. */
  class Record<T> {
    var row: T

    constructor (row: T)
      ensures this.row == row
    {
      this.row := row;
    }
  }

  /** The options object a caller hands down: `model`, once set, is shared by every callee. */
  class Options<T> {
    var model: Record?<T>

    constructor (model: Record?<T>)
      ensures this.model == model
    {
      this.model := model;
    }

    ghost function Row(): Option<T>
      reads this, model
    {
      if model == null then None else Some(model.row)
    }
  }

  /** The shared model as callers see it: the caller's own record, or one loaded on its behalf. */
  twostate predicate KeepsModel<T>(options: Options<T>)
    reads options
  {
    options.model == old(options.model) || fresh(options.model)
  }

  /** The ids of listed lines. */
  ghost function Ids(rows: seq<Line>): seq<nat> {
    seq(|rows|, i requires 0 <= i < |rows| => rows[i].id)
  }

  lemma IdsOfRows(rows: seq<Line>)
    ensures forall id :: id in Ids(rows) <==> exists row :: row in rows && row.id == id
  {
    forall id | id in Ids(rows)
      ensures exists row :: row in rows && row.id == id
    {
      var i :| 0 <= i < |rows| && Ids(rows)[i] == id;
      assert rows[i] in rows;
    }
    forall row | row in rows
      ensures row.id in Ids(rows)
    {
      var i :| 0 <= i < |rows| && rows[i] == row;
      assert Ids(rows)[i] == row.id;
    }
  }

  /** The tables' order of rows is the database's business: any listing of a set of ids will do. */
  method ListIds(ids: set<nat>) returns (listing: seq<nat>)
    ensures Lists(listing, ids)
  {
    listing := [];
    var left := ids;
    while left != {}
      invariant left <= ids && Lists(listing, ids - left)
      decreases left
    {
      var id :| id in left;
      listing, left := listing + [id], left - {id};
    }
  }
}
