/** The context-keyword endpoints (backend/app/api/endpoints/context_keywords.py): a table of
    keywords whose `keyword` column is unique (backend/app/models/context_keywords.py). */
module ContextKeywords {
  import opened Common
  import Seqs

  /** The stored keywords without `k`, in table order. */
  function Without(ks: seq<string>, k: string): (r: seq<string>)
    ensures forall x :: x in r <==> x in ks && x != k
    ensures Seqs.Distinct(ks) ==> Seqs.Distinct(r)
    ensures k !in ks ==> r == ks
  {
    if ks == [] then []
    else
      var rest := Without(ks[1..], k);
      assert forall x | x in ks :: x == ks[0] || x in ks[1..];
      assert ks == [ks[0]] + ks[1..];
      if ks[0] == k then rest
      else
        assert Seqs.Distinct(ks) ==> Seqs.Distinct([ks[0]] + rest) by {
          if Seqs.Distinct(ks) {
            assert ks[0] !in ks[1..] by {
              forall i | 0 <= i < |ks[1..]| ensures ks[1..][i] != ks[0] {
                assert ks[1..][i] == ks[i + 1];
              }
            }
            assert Seqs.Distinct(ks[1..]) by {
              forall i, j | 0 <= i < j < |ks[1..]| ensures ks[1..][i] != ks[1..][j] {
                assert ks[1..][i] == ks[i + 1] && ks[1..][j] == ks[j + 1];
              }
            }
            DistinctCons(ks[0], rest);
          }
        }
        [ks[0]] + rest
  }

  lemma DistinctCons(x: string, rest: seq<string>)
    requires Seqs.Distinct(rest) && x !in rest
    ensures Seqs.Distinct([x] + rest)
  {
    var s := [x] + rest;
    forall i, j | 0 <= i < j < |s|
      ensures s[i] != s[j]
    {
      assert s[j] == rest[j - 1];
      if i > 0 {
        assert s[i] == rest[i - 1];
      }
    }
  }

  /** The keyword table. */
  class KeywordTable {
    var keywords: seq<string>

    /** The unique constraint on the column. */
    ghost predicate Valid()
      reads this
    {
      Seqs.Distinct(keywords)
    }

    constructor ()
      ensures Valid() && keywords == []
    {
      keywords := [];
    }

    /** `GET /context-keywords`: every stored keyword. */
    function GetAll(): (r: seq<string>)
      reads this
      requires Valid()
      ensures Seqs.Distinct(r) && forall k :: k in r <==> k in keywords
    {
      keywords
    }

    /** `POST /context-keywords`: an existing keyword violates the unique constraint, the
        insert is rolled back and 400 is answered; otherwise the keyword is appended. */
    method Add(keyword: string) returns (r: Result<(), HttpError>)
      requires Valid()
      modifies this
      ensures Valid()
      ensures r.Err? <==> keyword in old(keywords)
      ensures r.Err? ==> r.error == HttpError(400, "Keyword already exists") && keywords == old(keywords)
      ensures r.Ok? ==> keywords == old(keywords) + [keyword]
      ensures keyword in keywords
    {
      if keyword in keywords {
        return Err(HttpError(400, "Keyword already exists"));
      }
      assert Seqs.Distinct(keywords + [keyword]) by {
        var s := keywords + [keyword];
        forall i, j | 0 <= i < j < |s| ensures s[i] != s[j] {
          if j == |s| - 1 {
            assert s[i] == keywords[i];
          } else {
            assert s[i] == keywords[i] && s[j] == keywords[j];
          }
        }
      }
      keywords := keywords + [keyword];
      r := Ok(());
    }

    /** `DELETE /context-keywords/{keyword}`: removes a stored keyword, or answers 404. */
    method Delete(keyword: string) returns (r: Result<(), HttpError>)
      requires Valid()
      modifies this
      ensures Valid()
      ensures r.Err? <==> keyword !in old(keywords)
      ensures r.Err? ==> r.error == HttpError(404, "Keyword not found") && keywords == old(keywords)
      ensures forall k :: k in keywords <==> k in old(keywords) && k != keyword
    {
      if keyword !in keywords {
        return Err(HttpError(404, "Keyword not found"));
      }
      keywords := Without(keywords, keyword);
      r := Ok(());
    }
  }
}
