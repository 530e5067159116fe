/** The vendor-ID autocomplete of the performance form (public/js/script.js): on every
    input event the vendor list is filtered against the lowercased input. */
module Autocomplete {
  import opened Sequences
  import opened Text

  /** A row of `/vendors-list`: the vendor's numeric ID and its name. */
  datatype Vendor = Vendor(id: nat, name: string)

  /** `vendor.VendorID.toString().startsWith(q) || vendor.Name.toLowerCase().includes(q)`,
      with `lower` standing for `toLowerCase`. */
  predicate Matches(v: Vendor, q: string, lower: string -> string) {
    IsPrefix(q, NatToString(v.id)) || IsSubstring(q, lower(v.name))
  }

  /** The suggestions shown for the raw input value: none when the lowercased input is
      empty, otherwise the matching vendors in their original order, each as often as it
      occurs in the list. */
  function Suggestions(vendors: seq<Vendor>, input: string, lower: string -> string): (r: seq<Vendor>)
    ensures |lower(input)| == 0 ==> r == []
    ensures IsSubseq(r, vendors)
    ensures forall v :: multiset(r)[v] ==
                        if |lower(input)| > 0 && Matches(v, lower(input), lower) then multiset(vendors)[v] else 0
  {
    var q := lower(input);
    if |q| > 0 then Filter(vendors, v => Matches(v, q, lower)) else []
  }

  /** A vendor is suggested iff it is in the list and matches the lowercased, non-empty input. */
  lemma SuggestedExactly(vendors: seq<Vendor>, input: string, lower: string -> string, v: Vendor)
    ensures v in Suggestions(vendors, input, lower) <==>
      |lower(input)| > 0 && v in vendors && Matches(v, lower(input), lower)
  {
    var r := Suggestions(vendors, input, lower);
    assert v in r <==> multiset(r)[v] > 0;
    assert v in vendors <==> multiset(vendors)[v] > 0;
  }

  /** Only digits can match an ID: an input holding any other character is matched
      against vendor names alone. */
  lemma NonDigitQueryMatchesNamesOnly(v: Vendor, q: string, lower: string -> string, k: nat)
    requires k < |q| && !IsDigit(q[k])
    ensures Matches(v, q, lower) <==> IsSubstring(q, lower(v.name))
  {
  }

  /** An input that is the full decimal ID of a vendor always suggests that vendor. */
  lemma FullIdSuggestsVendor(vendors: seq<Vendor>, v: Vendor, lower: string -> string)
    requires v in vendors
    requires lower(NatToString(v.id)) == NatToString(v.id)
    ensures v in Suggestions(vendors, NatToString(v.id), lower)
  {
    var q := NatToString(v.id);
    assert IsPrefix(q, q);
    SuggestedExactly(vendors, q, lower, v);
  }
}
