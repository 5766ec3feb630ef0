/** `map_order_status` of the row-by-row migration. */
module Statuses {

  import opened Options
  import opened Text
  import opened Records


  /** `map_order_status`: the status text lower-cased and stripped, English and Spanish words accepted. */
  function MapOrderStatus(status: Option<string>): (r: OrderStatus)
    ensures r != Processing && r != Refunded
  {
    if status.None? || status.value == [] then Pending else StatusOfWord(Strip(Lower(status.value)))
  }

  /** The status a cleaned status word stands for; unknown words stand for `Pending`. */
  function StatusOfWord(s: string): OrderStatus
  {
    if s == "pending" || s == "processing" then Pending
    else if s == "shipped" || s == "enviado" then Shipped
    else if s == "delivered" || s == "entregado" then Delivered
    else if s == "cancelled" || s == "cancelado" then Cancelled
    else Pending
  }

  /** The words of a status, whatever their case and surrounding whitespace. */
  predicate StatusSays(status: Option<string>, words: set<string>) {
    status.Some? && status.value != [] && Strip(Lower(status.value)) in words
  }

  lemma StatusOfWordIff(s: string)
    ensures StatusOfWord(s) == Shipped <==> s in {"shipped", "enviado"}
    ensures StatusOfWord(s) == Delivered <==> s in {"delivered", "entregado"}
    ensures StatusOfWord(s) == Cancelled <==> s in {"cancelled", "cancelado"}
  {
  }

  /** Each status other than `Pending` comes from exactly its two words. */
  lemma MapOrderStatusIff(status: Option<string>)
    ensures MapOrderStatus(status) == Shipped <==> StatusSays(status, {"shipped", "enviado"})
    ensures MapOrderStatus(status) == Delivered <==> StatusSays(status, {"delivered", "entregado"})
    ensures MapOrderStatus(status) == Cancelled <==> StatusSays(status, {"cancelled", "cancelado"})
  {
    if status.Some? && status.value != [] {
      StatusOfWordIff(Strip(Lower(status.value)));
    }
  }

  /** Case and surrounding whitespace do not change the status. */
  lemma MapOrderStatusInsensitive(pad1: string, status: string, pad2: string)
    requires AllSpace(pad1) && AllSpace(pad2)
    ensures MapOrderStatus(Some(pad1 + Upper(status) + pad2)) == MapOrderStatus(Some(status))
  {
    var t := pad1 + Upper(status) + pad2;
    assert Strip(Lower(t)) == Strip(Lower(status)) by {
      LowerPadded(pad1, status, pad2);
      StripPadded(pad1, Lower(status), pad2);
    }
    MapOrderStatusByKey(t);
    MapOrderStatusByKey(status);
  }

  /** An empty status text has the key of an unrecognised one. */
  lemma MapOrderStatusByKey(status: string)
    ensures MapOrderStatus(Some(status)) == StatusOfWord(Strip(Lower(status)))
  {
    if status == [] {
      assert Strip(Lower(status)) == [];
    }
  }

  lemma LowerPadded(pad1: string, s: string, pad2: string)
    requires AllSpace(pad1) && AllSpace(pad2)
    ensures Lower(pad1 + Upper(s) + pad2) == pad1 + Lower(s) + pad2
  {
    LowerConcat(pad1 + Upper(s), pad2);
    LowerConcat(pad1, Upper(s));
    LowerOfSpaces(pad1);
    LowerOfSpaces(pad2);
    LowerUpper(s);
  }
}
