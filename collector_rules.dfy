/**
 * The business rule run before a collector is saved
 * (`businessrules/collector_rules.py`): a new collector without an order
 * number is numbered one past the highest order number of its collecting
 * event.
 */
module CollectorRules {

  datatype Option<+T> = None | Some(value: T)

  /** A collector already in the database, as the aggregate query sees it */
  datatype StoredCollector = StoredCollector(collectingEvent: int, orderNumber: Option<int>)

  /** The collector belongs to the event and has an order number */
  predicate Numbered(c: StoredCollector, event: int) {
    c.collectingEvent == event && c.orderNumber.Some?
  }

  /** `Max('ordernumber')` over the event's collectors: nulls are ignored, no value gives null */
  function MaxOrderNumber(stored: seq<StoredCollector>, event: int): (r: Option<int>)
    ensures r.None? <==> forall k :: 0 <= k < |stored| ==> !Numbered(stored[k], event)
    ensures r.Some? ==> forall k :: 0 <= k < |stored| && Numbered(stored[k], event) ==>
      stored[k].orderNumber.value <= r.value
    ensures r.Some? ==> exists k :: (0 <= k < |stored| && Numbered(stored[k], event) &&
      stored[k].orderNumber.value == r.value)
  {
    if stored == [] then None
    else
      var rest := MaxOrderNumber(stored[1..], event);
      assert forall k :: 1 <= k < |stored| ==> stored[k] == stored[1..][k - 1];
      if !Numbered(stored[0], event) then rest
      else if rest.Some? && rest.value > stored[0].orderNumber.value then
        var j :| 0 <= j < |stored[1..]| && Numbered(stored[1..][j], event) && stored[1..][j].orderNumber.value == rest.value;
        assert stored[j + 1] == stored[1..][j];
        rest
      else stored[0].orderNumber
  }

  /** `... ['ordernumber__max'] or 0`: a null maximum and a maximum of 0 both give 0 */
  function Top(stored: seq<StoredCollector>, event: int): int {
    var m := MaxOrderNumber(stored, event);
    if m.Some? && m.value != 0 then m.value else 0
  }

  class Collector {
    var id: Option<int>
    var orderNumber: Option<int>
    var collectingEvent: int

    /** A collector not yet saved */
    constructor(collectingEvent: int, orderNumber: Option<int>)
      ensures id.None? && this.orderNumber == orderNumber && this.collectingEvent == collectingEvent
    {
      id := None;
      this.orderNumber := orderNumber;
      this.collectingEvent := collectingEvent;
    }

    /**
     * `collector_pre_save`: only an unsaved collector without an order
     * number is numbered; every other collector is left as it is.
     */
    method PreSave(stored: seq<StoredCollector>)
      modifies this
      ensures id == old(id) && collectingEvent == old(collectingEvent)
      ensures old(id).None? && old(orderNumber).None? ==>
        orderNumber == Some(Top(stored, collectingEvent) + 1)
      ensures !(old(id).None? && old(orderNumber).None?) ==> orderNumber == old(orderNumber)
    {
      if id.None? {
        if orderNumber.None? {
          var top := Top(stored, collectingEvent);
          orderNumber := Some(top + 1);
        }
      }
    }
  }

  /**
   * The number given is above every order number the event already has,
   * and it is 1 when the event has none (or only nulls).
   */
  lemma NextNumberIsFresh(stored: seq<StoredCollector>, event: int)
    ensures forall k :: 0 <= k < |stored| && Numbered(stored[k], event) ==>
      stored[k].orderNumber.value < Top(stored, event) + 1
    ensures (forall k :: 0 <= k < |stored| ==> !Numbered(stored[k], event)) ==> Top(stored, event) + 1 == 1
  {
  }

  /** When the highest existing number is positive the new one follows it directly */
  lemma NextFollowsMaximum(stored: seq<StoredCollector>, event: int, k: int)
    requires 0 <= k < |stored| && Numbered(stored[k], event) && stored[k].orderNumber.value != 0
    requires forall j :: 0 <= j < |stored| && Numbered(stored[j], event) ==>
      stored[j].orderNumber.value <= stored[k].orderNumber.value
    ensures Top(stored, event) + 1 == stored[k].orderNumber.value + 1
  {
  }
}
