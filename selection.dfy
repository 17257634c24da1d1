/** The startup choice of a generation model in `get_best_model`, once the
    service's model listing is given as data. */
module ModelSelection {
  import opened PyText

  /** One entry of the service's model listing. */
  datatype ModelInfo = ModelInfo(name: string, supportedMethods: seq<string>)

  /** The outcome of `genai.list_models()`: the listing, or an exception
      raised at any point while it is iterated. */
  datatype Listing = ListingFailed | Listed(models: seq<ModelInfo>)

  const GenerateContent: string := "generateContent"

  /** The preferred identifiers, most preferred first. */
  const PriorityList: seq<string> := ["gemini-2.5-flash", "gemini-2.0-flash", "gemini-1.5-flash-latest"]

  /** The model used when nothing is listed or the listing fails. */
  const DefaultModel: string := "gemini-1.5-flash-latest"

  /** The names of the listed models that support content generation, in
      listing order. */
  function Compatible(models: seq<ModelInfo>): (names: seq<string>)
    ensures |names| <= |models|
    ensures forall n :: n in names ==> exists k :: 0 <= k < |models| && models[k].name == n
                                                && GenerateContent in models[k].supportedMethods
    ensures forall k :: 0 <= k < |models| && GenerateContent in models[k].supportedMethods ==> models[k].name in names
  {
    if models == [] then []
    else
      var m := models[|models| - 1];
      Compatible(models[..|models| - 1]) + (if GenerateContent in m.supportedMethods then [m.name] else [])
  }

  /** Filtering keeps listing order: the names compatible in a listing made
      of two parts are those of the first part followed by those of the
      second. */
  lemma {:induction false} CompatibleAppend(xs: seq<ModelInfo>, ys: seq<ModelInfo>)
    ensures Compatible(xs + ys) == Compatible(xs) + Compatible(ys)
    decreases |ys|
  {
    if ys == [] {
      assert xs + ys == xs;
    } else {
      assert (xs + ys)[..|xs + ys| - 1] == xs + ys[..|ys| - 1];
      CompatibleAppend(xs, ys[..|ys| - 1]);
    }
  }

  /** The first compatible name is that of the first listed model that
      supports generation. */
  lemma FirstCompatible(xs: seq<ModelInfo>, m: ModelInfo, ys: seq<ModelInfo>)
    requires forall k :: 0 <= k < |xs| ==> GenerateContent !in xs[k].supportedMethods
    requires GenerateContent in m.supportedMethods
    ensures Compatible(xs + [m] + ys) != [] && Compatible(xs + [m] + ys)[0] == m.name
  {
    CompatibleEmpty(xs);
    CompatibleAppend(xs + [m], ys);
    CompatibleAppend(xs, [m]);
    assert [m][..0] == [];
  }

  /** No name contains any of the first `p` identifiers. */
  ghost predicate NoneOfFirst(targets: seq<string>, names: seq<string>, p: int) {
    forall q, j :: 0 <= q < p && q < |targets| && 0 <= j < |names| ==> !Contains(names[j], targets[q])
  }

  /** `names[j]` is the choice of the priority search: `targets[p]` is the
      first identifier that some name contains, and `names[j]` is the first
      name that contains it. */
  ghost predicate BestMatch(targets: seq<string>, names: seq<string>, p: int, j: int) {
    && 0 <= p < |targets| && 0 <= j < |names|
    && Contains(names[j], targets[p])
    && NoneOfFirst(targets, names, p)
    && forall k :: 0 <= k < j ==> !Contains(names[k], targets[p])
  }

  /** The name `get_best_model` settles on for a list of compatible names. */
  ghost predicate ChosenFrom(available: seq<string>, name: string) {
    if NoneOfFirst(PriorityList, available, |PriorityList|) then
      name == (if available != [] then available[0] else DefaultModel)
    else
      exists p, j :: BestMatch(PriorityList, available, p, j) && name == available[j]
  }

  /** `get_best_model`, returning the name it hands to `GenerativeModel`. */
  method GetBestModel(listing: Listing) returns (name: string)
    ensures listing.ListingFailed? ==> name == DefaultModel
    ensures listing.Listed? ==> ChosenFrom(Compatible(listing.models), name)
  {
    if listing.ListingFailed? {
      return DefaultModel;
    }
    var models := listing.models;
    var available: seq<string> := [];
    var i := 0;
    while i < |models|
      invariant 0 <= i <= |models|
      invariant available == Compatible(models[..i])
    {
      if GenerateContent in models[i].supportedMethods {
        available := available + [models[i].name];
      }
      assert models[..i + 1][..i] == models[..i];
      i := i + 1;
    }
    assert models[..i] == models;

    var p := 0;
    while p < |PriorityList|
      invariant 0 <= p <= |PriorityList|
      invariant NoneOfFirst(PriorityList, available, p)
    {
      var target := PriorityList[p];
      var j := 0;
      while j < |available|
        invariant 0 <= j <= |available|
        invariant forall k :: 0 <= k < j ==> !Contains(available[k], target)
      {
        if In(target, available[j]) {
          assert BestMatch(PriorityList, available, p, j);
          return available[j];
        }
        j := j + 1;
      }
      p := p + 1;
    }
    if available != [] {
      return available[0];
    }
    return DefaultModel;
  }

  /** The priority search has one answer: the conditions of `BestMatch` fix
      both the identifier and the name. */
  lemma BestMatchUnique(targets: seq<string>, names: seq<string>, p: int, j: int, p': int, j': int)
    requires BestMatch(targets, names, p, j) && BestMatch(targets, names, p', j')
    ensures p == p' && j == j'
  {
  }

  /** An identifier earlier in the priority list wins over list order: a
      name containing "gemini-2.5-flash" is chosen even when a name
      containing "gemini-2.0-flash" is listed before it. */
  lemma HigherPriorityWins(available: seq<string>, name: string, j: int)
    requires ChosenFrom(available, name)
    requires 0 <= j < |available| && Contains(available[j], PriorityList[0])
    requires forall k :: 0 <= k < j ==> !Contains(available[k], PriorityList[0])
    ensures name == available[j]
  {
    assert BestMatch(PriorityList, available, 0, j);
    var p, j' :| BestMatch(PriorityList, available, p, j') && name == available[j'];
    BestMatchUnique(PriorityList, available, 0, j, p, j');
  }

  /** With no listed model supporting generation, the default is used. */
  lemma NoCompatibleModel(models: seq<ModelInfo>, name: string)
    requires forall k :: 0 <= k < |models| ==> GenerateContent !in models[k].supportedMethods
    requires ChosenFrom(Compatible(models), name)
    ensures name == DefaultModel
  {
    CompatibleEmpty(models);
    assert NoneOfFirst(PriorityList, [], |PriorityList|);
  }

  lemma {:induction false} CompatibleEmpty(models: seq<ModelInfo>)
    requires forall k :: 0 <= k < |models| ==> GenerateContent !in models[k].supportedMethods
    ensures Compatible(models) == []
  {
    if models != [] {
      CompatibleEmpty(models[..|models| - 1]);
    }
  }
}
