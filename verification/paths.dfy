/** The output file names of the three pipelines, all derived from the company name by
    `name.replace(' ', '_').lower()`. */
module Paths {
  import opened Text

  /** The file-name stem of a company: spaces become underscores, then ASCII letters are lowered. */
  function Slug(name: string): (slug: string)
    ensures |slug| == |name|
    ensures forall i :: 0 <= i < |slug| ==> slug[i] != ' ' && !IsUpper(slug[i])
    ensures forall i :: 0 <= i < |name| && name[i] == ' ' ==> slug[i] == '_'
    ensures forall i :: 0 <= i < |name| && IsUpper(name[i]) ==> slug[i] == LowerChar(name[i])
  {
    Lower(ReplaceChar(name, ' ', '_'))
  }

  /** Characters other than spaces and capitals are kept in place. */
  lemma SlugKeeps(name: string, i: nat)
    requires i < |name| && name[i] != ' ' && !IsUpper(name[i])
    ensures Slug(name)[i] == name[i]
  {
  }

  /** Deriving the stem twice changes nothing. */
  lemma SlugIdempotent(name: string)
    ensures Slug(Slug(name)) == Slug(name)
  {
    assert forall i :: 0 <= i < |name| ==> Slug(Slug(name))[i] == Slug(name)[i];
  }

  /** Names that differ only in letter case share one stem. */
  lemma SlugIgnoresCase(name: string)
    ensures Slug(Lower(name)) == Slug(name)
  {
    assert forall i :: 0 <= i < |name| ==> Slug(Lower(name))[i] == Slug(name)[i];
  }

  /** "data/companies/{slug}_data.json". */
  function CompanyDataPath(name: string): (path: string)
    ensures |path| == 15 + |name| + 10
    ensures path[..15] == "data/companies/" && path[|path| - 10..] == "_data.json"
    ensures path[15..|path| - 10] == Slug(name)
  {
    "data/companies/" + Slug(name) + "_data.json"
  }

  /** "data/social/{slug}_social_data.json". */
  function SocialDataPath(name: string): (path: string)
    ensures |path| == 12 + |name| + 17
    ensures path[..12] == "data/social/" && path[|path| - 17..] == "_social_data.json"
    ensures path[12..|path| - 17] == Slug(name)
  {
    "data/social/" + Slug(name) + "_social_data.json"
  }

  /** "data/summaries/{slug}_collection_summary.json". */
  function SummaryPath(name: string): (path: string)
    ensures |path| == 15 + |name| + 24
    ensures path[..15] == "data/summaries/" && path[|path| - 24..] == "_collection_summary.json"
    ensures path[15..|path| - 24] == Slug(name)
  {
    "data/summaries/" + Slug(name) + "_collection_summary.json"
  }

  /** The data file of the example company "HDFC Bank". */
  lemma ExampleCompanyPath()
    ensures CompanyDataPath("HDFC Bank") == "data/companies/hdfc_bank_data.json"
  {
    assert Slug("HDFC Bank") == "hdfc_bank";
  }

  /** Two companies write the same data file exactly when their stems agree, so names such as
      "Acme Corp" and "acme_corp" overwrite each other's file. */
  lemma CompanyDataPathClash(a: string, b: string)
    ensures CompanyDataPath(a) == CompanyDataPath(b) <==> Slug(a) == Slug(b)
  {
  }

  lemma SocialDataPathClash(a: string, b: string)
    ensures SocialDataPath(a) == SocialDataPath(b) <==> Slug(a) == Slug(b)
  {
  }

  lemma SummaryPathClash(a: string, b: string)
    ensures SummaryPath(a) == SummaryPath(b) <==> Slug(a) == Slug(b)
  {
  }

  /** The example above, worked out. */
  lemma SpaceAndUnderscoreClash()
    ensures CompanyDataPath("Acme Corp") == CompanyDataPath("acme_corp")
  {
    assert Slug("Acme Corp") == "acme_corp";
    assert Slug("acme_corp") == "acme_corp";
  }
}
