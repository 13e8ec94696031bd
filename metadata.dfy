/** realestate_metadata.py: a reference to one listing found on a search-results page. */
module Metadata {

  /** All three fields are required strings. */
  datatype RealestateMetadata = RealestateMetadata(url: string, category: string, finnId: string)

  /** `__eq__`: two references are the same listing exactly when their finn codes agree. */
  predicate SameListing(a: RealestateMetadata, b: RealestateMetadata) {
    a.finnId == b.finnId
  }

  /** `__hash__`: the interpreter's string hash of the finn code. */
  function ListingHash(m: RealestateMetadata, hash: string -> int): int {
    hash(m.finnId)
  }

  /** The equality is an equivalence relation, as `set` needs. */
  lemma {:induction false} SameListingIsEquivalence(a: RealestateMetadata, b: RealestateMetadata, c: RealestateMetadata)
    ensures SameListing(a, a)
    ensures SameListing(a, b) ==> SameListing(b, a)
    ensures SameListing(a, b) && SameListing(b, c) ==> SameListing(a, c)
  {
  }

  /** Url and category play no part in identity: two references are the same listing
      exactly when their finn codes agree, whatever their urls and categories. */
  lemma {:induction false} SameListingIgnoresUrlAndCategory(a: RealestateMetadata, b: RealestateMetadata, url: string, category: string)
    ensures SameListing(a, RealestateMetadata(url, category, a.finnId))
    ensures a.finnId != b.finnId ==> !SameListing(a, b)
    ensures a.finnId == b.finnId ==> SameListing(a, b)
  {
  }

  /** Equal references hash equally, whatever the string hash is. */
  lemma {:induction false} EqualListingsHashEqually(a: RealestateMetadata, b: RealestateMetadata, hash: string -> int)
    requires SameListing(a, b)
    ensures ListingHash(a, hash) == ListingHash(b, hash)
  {
  }
}
