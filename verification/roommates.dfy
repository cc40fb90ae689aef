/**
 * Roommates and the lookup by id that both views use to turn a roommate id
 * into a display name (`roommates.find((r) => r.id === id)`).
 */
module Roommates {
  import opened Outcomes

  /** A roommate as the server returns it; the id is opaque and server-assigned. */
  datatype Roommate = Roommate(id: string, name: string)

  /** Some roommate in the list carries this id. */
  predicate HasId(roommates: seq<Roommate>, id: string)
  {
    exists i :: 0 <= i < |roommates| && roommates[i].id == id
  }

  /**
   * The first roommate whose id equals `id`, scanning from the front, or
   * None (JavaScript's `undefined`) when no roommate has it.
   */
  function FindById(roommates: seq<Roommate>, id: string): (found: Option<Roommate>)
    ensures found.None? <==> !HasId(roommates, id)
    ensures found.Some? ==> found.value in roommates && found.value.id == id
  {
    if roommates == [] then None
    else if roommates[0].id == id then Some(roommates[0])
    else
      var rest := FindById(roommates[1..], id);
      assert HasId(roommates, id) ==> roommates[0].id == id || HasId(roommates[1..], id) by {
        if HasId(roommates, id) {
          var i :| 0 <= i < |roommates| && roommates[i].id == id;
          if i > 0 { assert roommates[1..][i - 1].id == id; }
        }
      }
      rest
  }

  /** The lookup returns the FIRST match: the roommate at the least index carrying the id. */
  lemma {:induction false} FindByIdIsFirst(roommates: seq<Roommate>, id: string, k: nat)
    requires k < |roommates| && roommates[k].id == id
    requires forall j :: 0 <= j < k ==> roommates[j].id != id
    ensures FindById(roommates, id) == Some(roommates[k])
  {
    if k > 0 {
      FindByIdIsFirst(roommates[1..], id, k - 1);
    }
  }

  /**
   * Appending roommates never changes a lookup that already succeeded; a
   * lookup that missed is answered by the appended part alone.
   */
  lemma {:induction false} FindByIdAppend(roommates: seq<Roommate>, added: seq<Roommate>, id: string)
    ensures FindById(roommates + added, id)
         == if FindById(roommates, id).Some? then FindById(roommates, id) else FindById(added, id)
  {
    if roommates == [] {
      assert roommates + added == added;
    } else {
      assert (roommates + added)[1..] == roommates[1..] + added;
      FindByIdAppend(roommates[1..], added, id);
    }
  }
}
