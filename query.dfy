/**
 * Looking entities up on the target instance by their main field: the query
 * string of `getFilterQueryByMainField` and the request of
 * `getRemoteFilteredEntities`. `encodeURIComponent` is a parameter.
 */
module Query {
  import opened Values
  import opened Remote

  /** `encodeURIComponent` applied to `String(value)`. */
  type Encoder = string -> string

  /** `filters[<mainField>][$in][<index>]=<encoded value>` */
  function Clause(enc: Encoder, mainField: string, i: nat, e: Value): string
  {
    "filters[" + mainField + "][$in][" + NatText(i) + "]=" + enc(Text(Get(e, mainField)))
  }

  /** Appended to every query, right after an `&`. */
  const Paging: string := "pagination[limit]=10000&publicationState=preview"

  const Suffix: string := "&" + Paging

  /** The reduction from index `i` with accumulator `acc`: an empty accumulator takes the clause alone. */
  function FilterQueryFrom(enc: Encoder, data: seq<Value>, mainField: string, i: nat, acc: string): string
    requires i <= |data|
    decreases |data| - i
  {
    if i == |data| then acc
    else
      var q := Clause(enc, mainField, i, data[i]);
      FilterQueryFrom(enc, data, mainField, i + 1, if acc == "" then q else acc + "&" + q)
  }

  /**
   * `getFilterQueryByMainField(data, mainField)`: the clauses joined by `&`,
   * in entity order, followed by the fixed suffix.
   */
  function FilterQuery(enc: Encoder, data: seq<Value>, mainField: string): (r: string)
    ensures r == JoinAmp(Clauses(enc, data, mainField)) + Suffix
  {
    assert Clauses(enc, data, mainField)[..0] == [];
    FilterQueryFromJoin(enc, data, mainField, 0);
    FilterQueryFrom(enc, data, mainField, 0, "") + Suffix
  }

  /** Reference: the parts joined by `&`. */
  function JoinAmp(parts: seq<string>): string
  {
    if |parts| == 0 then ""
    else if |parts| == 1 then parts[0]
    else JoinAmp(parts[..|parts| - 1]) + "&" + parts[|parts| - 1]
  }

  /** The clauses in entity order. */
  function Clauses(enc: Encoder, data: seq<Value>, mainField: string): (r: seq<string>)
    ensures |r| == |data| && forall i :: 0 <= i < |data| ==> r[i] == Clause(enc, mainField, i, data[i])
  {
    seq(|data|, i requires 0 <= i < |data| => Clause(enc, mainField, i, data[i]))
  }

  lemma {:induction false} FilterQueryFromJoin(enc: Encoder, data: seq<Value>, mainField: string, i: nat)
    requires i <= |data|
    ensures FilterQueryFrom(enc, data, mainField, i, JoinAmp(Clauses(enc, data, mainField)[..i])) == JoinAmp(Clauses(enc, data, mainField))
    decreases |data| - i
  {
    var cs := Clauses(enc, data, mainField);
    if i == |data| {
      assert cs[..i] == cs;
    } else {
      var acc := JoinAmp(cs[..i]);
      var q := cs[i];
      assert cs[..i + 1][..i] == cs[..i];
      assert acc == "" <==> i == 0 by {
        if i > 0 {
          JoinAmpNonEmpty(cs[..i]);
        }
      }
      if i == 0 {
        assert cs[..1] == [q];
      }
      FilterQueryFromJoin(enc, data, mainField, i + 1);
    }
  }

  lemma JoinAmpNonEmpty(parts: seq<string>)
    requires |parts| > 0 && |parts[0]| > 0
    ensures JoinAmp(parts) != ""
  {
    if |parts| > 1 {
      assert |JoinAmp(parts)| >= 1;
    }
  }

  /** With no entities the query has no clause and starts with `&`. */
  lemma FilterQueryEmpty(enc: Encoder, mainField: string)
    ensures FilterQuery(enc, [], mainField) == Suffix
    ensures FilterQuery(enc, [], mainField)[0] == '&'
  {
    assert FilterQueryFrom(enc, [], mainField, 0, "") == "";
    assert "" + Suffix == Suffix;
  }

  // ---------------------------------------------------------------------------
  // getRemoteFilteredEntities

  /** The full query: filter, `populate[localizations]=true`, then the optional extra queries. */
  function AllQueries(enc: Encoder, entities: seq<Value>, mainField: string, extra: string): string
  {
    var defaults := FilterQuery(enc, entities, mainField) + "&populate[localizations]=true";
    if extra != "" then defaults + "&" + extra else defaults
  }

  /**
   * `getRemoteFilteredEntities(entities, mainField, client, extraQueries)`:
   * nothing to look up sends nothing; a failed or malformed answer is an
   * empty result.
   */
  function RemoteFilteredEntities(server: Server, t: nat, client: Client, enc: Encoder, entities: seq<Value>, mainField: string, extra: string): (r: Call<seq<Value>>)
    ensures entities == [] ==> r == Call([], [])
    ensures entities != [] ==> r.sent == [Request(Fetch, client, "?" + AllQueries(enc, entities, mainField, extra), Undef)]
    ensures entities != [] && server(t, r.sent[0]).Err? ==> r.value == []
    ensures entities != [] && server(t, r.sent[0]).Ok? && !Nullish(server(t, r.sent[0]).body) ==>
      r.value == Elements(Get(server(t, r.sent[0]).body, "data"))
  {
    if entities == [] then Call([], [])
    else
      var req := Request(Fetch, client, "?" + AllQueries(enc, entities, mainField, extra), Undef);
      match server(t, req)
      case Err(_) => Call([], [req])
      case Ok(body) => Call(if Nullish(body) then [] else Elements(Get(body, "data")), [req])
  }
}
