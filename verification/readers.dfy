/** Byte sources whose reads may come up short or fail. */
module Readers {
  import opened Bytes
  import opened Wrappers

  /**
   * A reader over fixed contents. Each call consults the next plan: `None` is an I/O error, a number
   * offers at most that many bytes (but at least one while any remain); once the plans run out every
   * call offers all it is asked for. Statements over all plans are statements over all short reads.
   */
  class ByteSource {
    var rest: Text
    var plans: seq<Option<nat>>

    constructor (contents: Text, plans: seq<Option<nat>>)
      ensures rest == contents && this.plans == plans
    {
      rest := contents;
      this.plans := plans;
    }

    method Read(limit: nat) returns (r: Option<Text>)
      requires limit > 0
      modifies this
      ensures r.None? ==> None in old(plans) && rest == old(rest)
      ensures r.Some? ==> r.value + rest == old(rest) && |r.value| <= limit
      ensures r.Some? ==> (r.value == [] <==> old(rest) == [])
      ensures None in plans ==> None in old(plans)
    {
      var offer := limit;
      if plans != [] {
        var plan := plans[0];
        plans := plans[1..];
        if plan.None? {
          return None;
        }
        offer := if plan.value == 0 then 1 else if plan.value < limit then plan.value else limit;
      }
      var size := if offer < |rest| then offer else |rest|;
      r := Some(rest[..size]);
      rest := rest[size..];
    }
  }
}
