/** The recipe catalog (src/recipes/recipe_catalog.cpp) and its replacement while inspections
    run (src/runtime/context.cpp:383-394, 427-435, 465-481). */
module Catalog {
  import opened Options
  import opened Sorting

  type Byte = n: int | 0 <= n < 256

  const MAX_ASSET_BYTES := 16777216
  const MAX_TOTAL_ASSET_BYTES := 67108864

  datatype Asset = Asset(key: string, reference: string)

  /** `body` stands for the fields that the catalog does not look at. */
  datatype Recipe = Recipe(id: string, algorithm: string, assets: seq<Asset>, body: string)

  /** What `load_recipe_file` makes of a file of the recipes directory. */
  datatype RecipeFile = RejectedFile | RecipeIn(recipe: Recipe)

  /** A reference that is missing, a link, not regular or outside the assets root is refused;
      otherwise the file has a size, and reading it yields some bytes or fails. */
  datatype AssetFile = Refused | Sized(size: nat, read: Option<seq<Byte>>)

  datatype LoadedAsset = LoadedAsset(asset: Asset, bytes: seq<Byte>)

  /** What an algorithm prepared from. */
  datatype Prepared = Prepared(recipe: Recipe, bundle: seq<LoadedAsset>)

  /** The recipe files in the order of their names, the registered algorithms, the asset files by
      reference, and which preparations succeed. */
  datatype Disk = Disk(files: seq<RecipeFile>, algorithms: set<string>, assets: map<string, AssetFile>,
                       prepares: Prepared -> bool)

  datatype Catalog = Catalog(recipes: seq<Recipe>, index: map<string, nat>, prepared: seq<Prepared>)

  // ----- assets --------------------------------------------------------------------------------------

  predicate AssetFits(disk: Disk, asset: Asset) {
    asset.reference in disk.assets
    && var file := disk.assets[asset.reference];
    file.Sized? && file.size <= MAX_ASSET_BYTES && file.read.Some? && |file.read.value| == file.size
  }

  function SizeUpTo(disk: Disk, assets: seq<Asset>, n: nat): nat
    requires n <= |assets| && forall i :: 0 <= i < n ==> AssetFits(disk, assets[i])
  {
    if n == 0 then 0
    else
      assert AssetFits(disk, assets[n - 1]);
      SizeUpTo(disk, assets, n - 1) + disk.assets[assets[n - 1].reference].size
  }

  lemma {:induction false} SizeGrows(disk: Disk, assets: seq<Asset>, m: nat, n: nat)
    requires m <= n <= |assets| && forall i :: 0 <= i < n ==> AssetFits(disk, assets[i])
    ensures SizeUpTo(disk, assets, m) <= SizeUpTo(disk, assets, n)
    decreases n
  {
    if m < n {
      SizeGrows(disk, assets, m, n - 1);
    }
  }

  predicate BundleFits(disk: Disk, assets: seq<Asset>) {
    && (forall i :: 0 <= i < |assets| ==> AssetFits(disk, assets[i]))
    && SizeUpTo(disk, assets, |assets|) <= MAX_TOTAL_ASSET_BYTES
  }

  function Loaded(disk: Disk, asset: Asset): LoadedAsset
    requires AssetFits(disk, asset)
  {
    LoadedAsset(asset, disk.assets[asset.reference].read.value)
  }

  function Bundle(disk: Disk, assets: seq<Asset>): seq<LoadedAsset>
    requires forall i :: 0 <= i < |assets| ==> AssetFits(disk, assets[i])
  {
    seq(|assets|, i requires 0 <= i < |assets| => Loaded(disk, assets[i]))
  }

  /** `load_asset_bytes` with the total of the assets before. */
  method LoadAssetBytes(disk: Disk, asset: Asset, runningTotal: nat) returns (r: Option<seq<Byte>>)
    ensures r.Some? <==>
              AssetFits(disk, asset) && runningTotal + disk.assets[asset.reference].size <= MAX_TOTAL_ASSET_BYTES
    ensures r.Some? ==> r.value == Loaded(disk, asset).bytes
  {
    if asset.reference !in disk.assets || disk.assets[asset.reference].Refused? {
      return None;
    }
    var file := disk.assets[asset.reference];
    if file.size > MAX_ASSET_BYTES {
      return None;
    }
    if runningTotal + file.size > MAX_TOTAL_ASSET_BYTES {
      return None;
    }
    if file.read.None? || |file.read.value| != file.size {
      return None;
    }
    return file.read;
  }

  /** The bounds on each file and on the running total accept exactly the bundles whose files
      all fit and whose whole size is within the bound. */
  method LoadAssets(disk: Disk, assets: seq<Asset>) returns (r: Option<seq<LoadedAsset>>)
    ensures r.Some? <==> BundleFits(disk, assets)
    ensures r.Some? ==> r.value == Bundle(disk, assets)
  {
    var bundle: seq<LoadedAsset> := [];
    var runningTotal := 0;
    for i := 0 to |assets|
      invariant forall k :: 0 <= k < i ==> AssetFits(disk, assets[k])
      invariant runningTotal == SizeUpTo(disk, assets, i) <= MAX_TOTAL_ASSET_BYTES
      invariant |bundle| == i && forall k :: 0 <= k < i ==> bundle[k] == Loaded(disk, assets[k])
    {
      var bytes := LoadAssetBytes(disk, assets[i], runningTotal);
      if bytes.None? {
        if BundleFits(disk, assets) {
          SizeGrows(disk, assets, i + 1, |assets|);
        }
        return None;
      }
      bundle := bundle + [LoadedAsset(assets[i], bytes.value)];
      runningTotal := runningTotal + |bytes.value|;
    }
    return Some(bundle);
  }

  // ----- loading -------------------------------------------------------------------------------------

  datatype Problem =
    | DirectoryMissing | DirectoryUnreadable
    | FileRejected | DuplicateId | NoAlgorithm | AssetProblem | PrepareFailed

  predicate IdTaken(disk: Disk, k: nat)
    requires k < |disk.files| && disk.files[k].RecipeIn?
  {
    exists j :: 0 <= j < k && disk.files[j].RecipeIn? && disk.files[j].recipe.id == disk.files[k].recipe.id
  }

  /** Why loading fails at file `k`, when it gets there. */
  function ProblemAt(disk: Disk, k: nat): Option<Problem>
    requires k < |disk.files|
  {
    match disk.files[k]
    case RejectedFile => Some(FileRejected)
    case RecipeIn(recipe) =>
      if IdTaken(disk, k) then Some(DuplicateId)
      else if recipe.algorithm !in disk.algorithms then Some(NoAlgorithm)
      else if !BundleFits(disk, recipe.assets) then Some(AssetProblem)
      else if !disk.prepares(Prepared(recipe, Bundle(disk, recipe.assets))) then Some(PrepareFailed)
      else None
  }

  /** Position `i` of the catalog holds what file `i` says. */
  predicate FromFile(c: Catalog, disk: Disk, i: nat)
    requires i < |c.recipes| && i < |c.prepared| && i < |disk.files|
  {
    && disk.files[i] == RecipeIn(c.recipes[i])
    && BundleFits(disk, c.recipes[i].assets)
    && c.prepared[i] == Prepared(c.recipes[i], Bundle(disk, c.recipes[i].assets))
  }

  /** Identifiers and positions correspond one to one. */
  predicate Indexed(c: Catalog) {
    && (forall i :: 0 <= i < |c.recipes| ==> c.recipes[i].id in c.index && c.index[c.recipes[i].id] == i)
    && (forall id :: id in c.index ==> c.index[id] < |c.recipes| && c.recipes[c.index[id]].id == id)
  }

  /** The first `n` files and nothing else are in the catalog. */
  predicate Holds(c: Catalog, disk: Disk, n: nat)
    requires n <= |disk.files|
  {
    && |c.recipes| == |c.prepared| == n
    && Indexed(c)
    && forall i :: 0 <= i < n ==> FromFile(c, disk, i)
  }

  predicate IsCatalogOf(c: Catalog, disk: Disk) {
    Holds(c, disk, |disk.files|)
  }

  datatype LoadResult = Failed(problem: Problem) | Complete(catalog: Catalog)

  ghost predicate FirstProblem(disk: Disk, k: nat, problem: Problem)
    requires k < |disk.files|
  {
    && ProblemAt(disk, k) == Some(problem)
    && forall j :: 0 <= j < k ==> ProblemAt(disk, j) == None
  }

  ghost predicate IsLoad(disk: Disk, r: LoadResult) {
    match r
    case Failed(problem) => exists k: nat :: k < |disk.files| && FirstProblem(disk, k, problem)
    case Complete(catalog) =>
      && IsCatalogOf(catalog, disk)
      && forall j :: 0 <= j < |disk.files| ==> ProblemAt(disk, j) == None
  }

  /** The loop over the sorted files: either all of them or the problem of the first bad one. */
  method LoadFiles(disk: Disk) returns (r: LoadResult)
    ensures IsLoad(disk, r)
  {
    var c := Catalog([], map[], []);
    for k := 0 to |disk.files|
      invariant Holds(c, disk, k)
      invariant forall j :: 0 <= j < k ==> ProblemAt(disk, j) == None
    {
      if disk.files[k].RejectedFile? {
        assert FirstProblem(disk, k, FileRejected);
        return Failed(FileRejected);
      }
      var recipe := disk.files[k].recipe;
      TakenIsIndexed(c, disk, k);
      if recipe.id in c.index {
        assert FirstProblem(disk, k, DuplicateId);
        return Failed(DuplicateId);
      }
      if recipe.algorithm !in disk.algorithms {
        assert FirstProblem(disk, k, NoAlgorithm);
        return Failed(NoAlgorithm);
      }
      var bundle := LoadAssets(disk, recipe.assets);
      if bundle.None? {
        assert FirstProblem(disk, k, AssetProblem);
        return Failed(AssetProblem);
      }
      var prepared := Prepared(recipe, bundle.value);
      if !disk.prepares(prepared) {
        assert FirstProblem(disk, k, PrepareFailed);
        return Failed(PrepareFailed);
      }
      Grows(c, disk, k, prepared);
      c := With(c, prepared);
    }
    return Complete(c);
  }

  function With(c: Catalog, prepared: Prepared): Catalog {
    Catalog(c.recipes + [prepared.recipe], c.index[prepared.recipe.id := |c.recipes|], c.prepared + [prepared])
  }

  lemma TakenIsIndexed(c: Catalog, disk: Disk, k: nat)
    requires k < |disk.files| && disk.files[k].RecipeIn? && Holds(c, disk, k)
    ensures IdTaken(disk, k) <==> disk.files[k].recipe.id in c.index
  {
    var id := disk.files[k].recipe.id;
    if id in c.index {
      assert FromFile(c, disk, c.index[id]);
    }
    if j :| 0 <= j < k && disk.files[j].RecipeIn? && disk.files[j].recipe.id == id {
      assert FromFile(c, disk, j);
    }
  }

  lemma Grows(c: Catalog, disk: Disk, k: nat, prepared: Prepared)
    requires k < |disk.files| && Holds(c, disk, k)
    requires disk.files[k] == RecipeIn(prepared.recipe) && prepared.recipe.id !in c.index
    requires BundleFits(disk, prepared.recipe.assets) && prepared.bundle == Bundle(disk, prepared.recipe.assets)
    ensures Holds(With(c, prepared), disk, k + 1)
  {
    var c' := With(c, prepared);
    forall i | 0 <= i < k + 1
      ensures FromFile(c', disk, i)
    {
      assert i < k ==> FromFile(c, disk, i);
    }
  }

  lemma {:induction false} Build(disk: Disk, k: nat) returns (c: Catalog)
    requires k <= |disk.files| && forall j :: 0 <= j < k ==> ProblemAt(disk, j) == None
    ensures Holds(c, disk, k)
  {
    if k == 0 {
      c := Catalog([], map[], []);
    } else {
      c := Build(disk, k - 1);
      assert ProblemAt(disk, k - 1) == None;
      TakenIsIndexed(c, disk, k - 1);
      var recipe := disk.files[k - 1].recipe;
      var prepared := Prepared(recipe, Bundle(disk, recipe.assets));
      Grows(c, disk, k - 1, prepared);
      c := With(c, prepared);
    }
  }

  lemma {:induction false} FirstBad(disk: Disk, k: nat) returns (problem: Option<Problem>)
    requires k <= |disk.files|
    ensures match problem
            case None => forall j :: 0 <= j < k ==> ProblemAt(disk, j) == None
            case Some(p) => exists j: nat :: j < |disk.files| && FirstProblem(disk, j, p)
  {
    problem := None;
    if k > 0 {
      problem := FirstBad(disk, k - 1);
      if problem.None? && ProblemAt(disk, k - 1).Some? {
        problem := ProblemAt(disk, k - 1);
        assert FirstProblem(disk, k - 1, problem.value);
      }
    }
  }

  lemma AtMostOneLoad(disk: Disk, r: LoadResult, r': LoadResult)
    requires IsLoad(disk, r) && IsLoad(disk, r')
    ensures r == r'
  {
    if r.Failed? && r'.Failed? {
      var k: nat :| k < |disk.files| && FirstProblem(disk, k, r.problem);
      var k': nat :| k' < |disk.files| && FirstProblem(disk, k', r'.problem);
      assert k == k';
    } else if r.Complete? && r'.Complete? {
      var c, c' := r.catalog, r'.catalog;
      forall i | 0 <= i < |disk.files|
        ensures c.recipes[i] == c'.recipes[i] && c.prepared[i] == c'.prepared[i]
      {
        assert FromFile(c, disk, i) && FromFile(c', disk, i);
      }
      assert c.recipes == c'.recipes && c.prepared == c'.prepared;
      assert c.index == c'.index;
    }
  }

  /** Files have exactly one load: loading them again gives an equal catalog or error. */
  lemma LoadIsDetermined(disk: Disk) returns (r: LoadResult)
    ensures IsLoad(disk, r) && forall r' :: IsLoad(disk, r') ==> r' == r
  {
    var problem := FirstBad(disk, |disk.files|);
    if problem.Some? {
      r := Failed(problem.value);
    } else {
      var c := Build(disk, |disk.files|);
      r := Complete(c);
    }
    forall r' | IsLoad(disk, r')
      ensures r' == r
    {
      AtMostOneLoad(disk, r, r');
    }
  }

  // ----- what is accepted --------------------------------------------------------------------------

  /** The bounds in numbers: the asset is a file of at most 16 MiB that reads in full. */
  lemma AssetFitsExactly(disk: Disk, asset: Asset)
    ensures AssetFits(disk, asset) <==>
              && asset.reference in disk.assets && disk.assets[asset.reference].Sized?
              && disk.assets[asset.reference].size <= 0x100_0000
              && disk.assets[asset.reference].read.Some?
              && |disk.assets[asset.reference].read.value| == disk.assets[asset.reference].size
  {
  }

  /** Sum of the sizes of `assets`. */
  function SumOfSizes(disk: Disk, assets: seq<Asset>): nat
    requires forall i :: 0 <= i < |assets| ==> AssetFits(disk, assets[i])
  {
    if assets == [] then 0
    else
      assert AssetFits(disk, assets[0]);
      disk.assets[assets[0].reference].size + SumOfSizes(disk, assets[1..])
  }

  lemma {:induction false} SizeUpToIsSum(disk: Disk, assets: seq<Asset>, n: nat)
    requires n <= |assets| && forall i :: 0 <= i < |assets| ==> AssetFits(disk, assets[i])
    ensures SizeUpTo(disk, assets, n) + SumOfSizes(disk, assets[n..]) == SumOfSizes(disk, assets)
  {
    if n == 0 {
      assert assets[0..] == assets;
    } else {
      SizeUpToIsSum(disk, assets, n - 1);
      assert AssetFits(disk, assets[n - 1]);
      assert assets[n - 1..][0] == assets[n - 1] && assets[n - 1..][1..] == assets[n..];
    }
  }

  /** A bundle is accepted exactly if every asset fits and they take at most 64 MiB together. */
  lemma BundleFitsExactly(disk: Disk, assets: seq<Asset>)
    ensures BundleFits(disk, assets) <==>
              (forall i :: 0 <= i < |assets| ==> AssetFits(disk, assets[i])) && SumOfSizes(disk, assets) <= 0x400_0000
  {
    if forall i :: 0 <= i < |assets| ==> AssetFits(disk, assets[i]) {
      SizeUpToIsSum(disk, assets, |assets|);
    }
  }

  /** File `k` is a recipe with an algorithm that is registered and prepares from assets that fit. */
  ghost predicate IsLoadable(disk: Disk, file: RecipeFile) {
    && file.RecipeIn?
    && file.recipe.algorithm in disk.algorithms
    && BundleFits(disk, file.recipe.assets)
    && disk.prepares(Prepared(file.recipe, Bundle(disk, file.recipe.assets)))
  }

  /** Files load completely exactly if each is loadable and no two recipes have one identifier. */
  lemma CompleteExactly(disk: Disk)
    ensures (exists c :: IsLoad(disk, Complete(c))) <==>
              && (forall k :: 0 <= k < |disk.files| ==> IsLoadable(disk, disk.files[k]))
              && (forall i, j :: 0 <= i < j < |disk.files| && disk.files[i].RecipeIn? && disk.files[j].RecipeIn? ==>
                    disk.files[i].recipe.id != disk.files[j].recipe.id)
  {
    if c :| IsLoad(disk, Complete(c)) {
      forall k | 0 <= k < |disk.files|
        ensures IsLoadable(disk, disk.files[k])
      {
        assert ProblemAt(disk, k) == None;
      }
      forall i, j | 0 <= i < j < |disk.files| && disk.files[i].RecipeIn? && disk.files[j].RecipeIn?
        ensures disk.files[i].recipe.id != disk.files[j].recipe.id
      {
        assert ProblemAt(disk, j) == None && !IdTaken(disk, j);
      }
    }
    if && (forall k :: 0 <= k < |disk.files| ==> IsLoadable(disk, disk.files[k]))
       && (forall i, j :: 0 <= i < j < |disk.files| && disk.files[i].RecipeIn? && disk.files[j].RecipeIn? ==>
             disk.files[i].recipe.id != disk.files[j].recipe.id)
    {
      forall j | 0 <= j < |disk.files|
        ensures ProblemAt(disk, j) == None
      {
        assert IsLoadable(disk, disk.files[j]);
      }
      var c := Build(disk, |disk.files|);
      assert IsLoad(disk, Complete(c));
    }
  }

  /** What each error says about its file, the first one that does not load. */
  lemma ProblemExactly(disk: Disk, k: nat)
    requires k < |disk.files|
    ensures var file := disk.files[k];
            var taken := exists j :: 0 <= j < k && disk.files[j].RecipeIn? && file.RecipeIn?
                                     && disk.files[j].recipe.id == file.recipe.id;
            && (ProblemAt(disk, k) == Some(FileRejected) <==> file.RejectedFile?)
            && (ProblemAt(disk, k) == Some(DuplicateId) <==> file.RecipeIn? && taken)
            && (ProblemAt(disk, k) == Some(NoAlgorithm) <==>
                  file.RecipeIn? && !taken && file.recipe.algorithm !in disk.algorithms)
            && (ProblemAt(disk, k) == Some(AssetProblem) <==>
                  && file.RecipeIn? && !taken && file.recipe.algorithm in disk.algorithms
                  && !BundleFits(disk, file.recipe.assets))
            && (ProblemAt(disk, k) == None <==> IsLoadable(disk, file) && !taken)
  {
    assert disk.files[k].RecipeIn? ==> (IdTaken(disk, k) <==>
      exists j :: 0 <= j < k && disk.files[j].RecipeIn? && disk.files[j].recipe.id == disk.files[k].recipe.id);
  }

  // ----- the directory -------------------------------------------------------------------------------

  const RECIPE_EXTENSION := ".json"

  datatype DirEntry = DirEntry(name: string, regular: bool, content: RecipeFile)

  /** What the directory iterator gives, in its own order. */
  datatype Listing = NoDirectory | Unreadable | Entries(entries: seq<DirEntry>)

  datatype Directory = Directory(listing: Listing, algorithms: set<string>, assets: map<string, AssetFile>,
                                 prepares: Prepared -> bool)

  function NameKey(e: DirEntry): Key {
    Key(0, e.name)
  }

  /** `path::extension` is the recipe extension; a name that only has a leading dot has none. */
  predicate IsRecipeName(name: string) {
    |name| > |RECIPE_EXTENSION| && name[|name| - |RECIPE_EXTENSION|..] == RECIPE_EXTENSION
  }

  predicate IsRecipeFile(e: DirEntry) {
    e.regular && IsRecipeName(e.name)
  }

  function RecipeFiles(entries: seq<DirEntry>): (r: seq<DirEntry>)
    ensures forall e :: e in r <==> e in entries && IsRecipeFile(e)
  {
    if entries == [] then []
    else
      var n := |entries| - 1;
      assert forall e :: e in entries <==> e in entries[..n] || e == entries[n];
      RecipeFiles(entries[..n]) + if IsRecipeFile(entries[n]) then [entries[n]] else []
  }

  /** The recipe files in the order of their names. */
  function SortedFiles(entries: seq<DirEntry>): seq<DirEntry> {
    Sorted(RecipeFiles(entries), NameKey)
  }

  function DiskOf(dir: Directory): Disk
    requires dir.listing.Entries?
  {
    var files := SortedFiles(dir.listing.entries);
    Disk(seq(|files|, i requires 0 <= i < |files| => files[i].content), dir.algorithms, dir.assets, dir.prepares)
  }

  ghost predicate IsDirectoryLoad(dir: Directory, r: LoadResult) {
    match dir.listing
    case NoDirectory => r == Failed(DirectoryMissing)
    case Unreadable => r == Failed(DirectoryUnreadable)
    case Entries(_) => IsLoad(DiskOf(dir), r)
  }

  /** `RecipeCatalog::load`: the error of listing the directory, or the load of its recipe files
      in the order of their names. */
  method Load(dir: Directory) returns (r: LoadResult)
    ensures IsDirectoryLoad(dir, r)
  {
    match dir.listing {
      case NoDirectory =>
        return Failed(DirectoryMissing);
      case Unreadable =>
        return Failed(DirectoryUnreadable);
      case Entries(entries) =>
        var files: seq<DirEntry> := [];
        for i := 0 to |entries|
          invariant files == RecipeFiles(entries[..i])
        {
          assert entries[..i + 1][..i] == entries[..i];
          if IsRecipeFile(entries[i]) {
            files := files + [entries[i]];
          }
        }
        assert entries[..|entries|] == entries;
        files := Sorted(files, NameKey);
        r := LoadFiles(DiskOf(dir));
    }
  }

  /** A recipe file is named something and then ".json", in lower case. */
  lemma RecipeNameExactly(name: string)
    ensures IsRecipeName(name) <==> exists stem :: stem != "" && name == stem + ".json"
  {
    if IsRecipeName(name) {
      var stem := name[..|name| - 5];
      assert stem != "" && name == stem + ".json";
    }
    if stem :| stem != "" && name == stem + ".json" {
      assert name[|name| - 5..] == ".json";
    }
  }

  lemma {:induction false} RecipeFilesDistinct(entries: seq<DirEntry>)
    requires DistinctKeys(entries, NameKey)
    ensures DistinctKeys(RecipeFiles(entries), NameKey)
  {
    if entries != [] {
      var n := |entries| - 1;
      var rest := RecipeFiles(entries[..n]);
      assert forall i, j :: 0 <= i < j < n ==> NameKey(entries[..n][i]) != NameKey(entries[..n][j]);
      RecipeFilesDistinct(entries[..n]);
      forall i | 0 <= i < |rest|
        ensures NameKey(rest[i]) != NameKey(entries[n])
      {
        assert rest[i] in entries[..n];
      }
    }
  }

  /** The order in which the iterator gives the entries does not matter. */
  lemma ListingOrderDoesNotMatter(dir: Directory, entries: seq<DirEntry>, r: LoadResult)
    requires dir.listing.Entries? && DistinctKeys(dir.listing.entries, NameKey) && DistinctKeys(entries, NameKey)
    requires forall e :: e in entries <==> e in dir.listing.entries
    ensures IsDirectoryLoad(dir, r) <==> IsDirectoryLoad(dir.(listing := Entries(entries)), r)
  {
    var a, b := RecipeFiles(dir.listing.entries), RecipeFiles(entries);
    RecipeFilesDistinct(dir.listing.entries);
    RecipeFilesDistinct(entries);
    SortedInOrder(a, NameKey);
    SortedInOrder(b, NameKey);
    SortIsUnique(Sorted(a, NameKey), Sorted(b, NameKey), NameKey);
  }

  // ----- lookups -------------------------------------------------------------------------------------

  datatype Found<+T> = Found(value: T) | RecipeNotFound | NoPreparedState | OutOfRange

  function Find(c: Catalog, id: string): Found<Recipe> {
    if id !in c.index then RecipeNotFound
    else if c.index[id] >= |c.recipes| then OutOfRange
    else Found(c.recipes[c.index[id]])
  }

  function FindPrepared(c: Catalog, id: string): Found<Prepared> {
    if id !in c.index then RecipeNotFound
    else if c.index[id] >= |c.prepared| then NoPreparedState
    else Found(c.prepared[c.index[id]])
  }

  /** File `i` of the directory holds `recipe`, and `prepared` was prepared from that file. */
  predicate BothFrom(disk: Disk, i: nat, recipe: Recipe, prepared: Prepared)
    requires i < |disk.files|
  {
    && disk.files[i] == RecipeIn(recipe)
    && BundleFits(disk, recipe.assets)
    && prepared == Prepared(recipe, Bundle(disk, recipe.assets))
  }

  /** Both lookups of one identifier answer from the same file of the loaded directory, whose
      recipe has that identifier; the errors for broken indices cannot occur. */
  lemma LookupsAgree(c: Catalog, disk: Disk, id: string)
    requires IsCatalogOf(c, disk)
    ensures Find(c, id).Found? || Find(c, id) == RecipeNotFound
    ensures Find(c, id).Found? <==> FindPrepared(c, id).Found?
    ensures Find(c, id).Found? ==>
              && Find(c, id).value.id == id
              && exists i: nat :: i < |disk.files| && BothFrom(disk, i, Find(c, id).value, FindPrepared(c, id).value)
    ensures Find(c, id) == RecipeNotFound ==>
              && FindPrepared(c, id) == RecipeNotFound
              && forall i :: 0 <= i < |disk.files| ==> disk.files[i].RecipeIn? && disk.files[i].recipe.id != id
  {
    if id in c.index {
      assert FromFile(c, disk, c.index[id]);
      assert BothFrom(disk, c.index[id], Find(c, id).value, FindPrepared(c, id).value);
    } else {
      forall i | 0 <= i < |disk.files|
        ensures disk.files[i].RecipeIn? && disk.files[i].recipe.id != id
      {
        assert FromFile(c, disk, i);
      }
    }
  }

  // ----- inspections and reloads ---------------------------------------------------------------------

  /** The held pointer is replaced as a whole. */
  class RecipeHolder {
    var catalog: Option<Catalog>

    method Publish(c: Catalog)
      modifies this
      ensures catalog == Some(c)
    {
      catalog := Some(c);
    }

    /** `reload_recipes`: the snapshot changes only when the whole directory loads. */
    method Reload(dir: Directory, closed: bool) returns (ok: bool)
      modifies this
      ensures !ok ==> catalog == old(catalog)
      ensures ok ==> !closed && catalog.Some? && IsDirectoryLoad(dir, Complete(catalog.value))
      ensures !closed && !ok ==> exists problem :: IsDirectoryLoad(dir, Failed(problem))
    {
      if closed {
        return false;
      }
      var candidate := Load(dir);
      match candidate {
        case Failed(problem) =>
          return false;
        case Complete(c) =>
          Publish(c);
          return true;
      }
    }
  }

  /** A catalog that was published, and the directory it was loaded from. */
  datatype Version = Version(disk: Disk, catalog: Catalog)

  /** The inspection that holds the gate: it took its snapshot and found its recipe, and uses
      both after the captures.  `version` says which published catalog the snapshot is. */
  datatype Inspector = Idle | Holding(requested: string, version: nat, snapshot: Catalog, recipe: Recipe)

  /** What an inspection dispatched. */
  datatype Use = Use(requested: string, version: nat, recipe: Recipe, prepared: Prepared)

  /** `published` is the history of the holder; its last entry is what it holds. */
  datatype State = State(
    published: seq<Version>,
    inspector: Inspector,
    loading: map<nat, Version>,
    used: seq<Use>,
    closed: bool)

  datatype Step =
    | InspectBegin(id: string)
    | InspectAbandon
    | InspectDispatch
    | ReloadRead(thread: nat, dir: Directory, result: LoadResult)
    | ReloadPublish(thread: nat)
    | Close

  function Latest(s: State): nat
    requires s.published != []
  {
    |s.published| - 1
  }

  ghost predicate Enabled(s: State, step: Step) {
    match step
    case InspectBegin(_) => !s.closed && s.inspector.Idle? && s.published != []
    case InspectAbandon => s.inspector.Holding?
    case InspectDispatch => s.inspector.Holding?
    case ReloadRead(thread, dir, result) => !s.closed && thread !in s.loading && IsDirectoryLoad(dir, result)
    case ReloadPublish(thread) => thread in s.loading
    case Close => true
  }

  ghost function Apply(s: State, step: Step): State
    requires Enabled(s, step)
  {
    match step
    case InspectBegin(id) =>
      (match Find(s.published[Latest(s)].catalog, id)
       case Found(recipe) => s.(inspector := Holding(id, Latest(s), s.published[Latest(s)].catalog, recipe))
       case _ => s)
    case InspectAbandon => s.(inspector := Idle)
    case InspectDispatch =>
      var i := s.inspector;
      (match FindPrepared(i.snapshot, i.recipe.id)
       case Found(prepared) => s.(inspector := Idle, used := s.used + [Use(i.requested, i.version, i.recipe, prepared)])
       case _ => s.(inspector := Idle))
    case ReloadRead(thread, dir, result) =>
      if result.Complete? then s.(loading := s.loading[thread := Version(DiskOf(dir), result.catalog)]) else s
    case ReloadPublish(thread) =>
      s.(published := s.published + [s.loading[thread]], loading := s.loading - {thread})
    case Close => s.(closed := true)
  }

  ghost predicate Runnable(s: State, steps: seq<Step>)
    decreases |steps|
  {
    steps == [] || (Enabled(s, steps[0]) && Runnable(Apply(s, steps[0]), steps[1..]))
  }

  ghost function Run(s: State, steps: seq<Step>): State
    requires Runnable(s, steps)
    decreases |steps|
  {
    if steps == [] then s else Run(Apply(s, steps[0]), steps[1..])
  }

  ghost predicate LoadedFrom(v: Version) {
    IsLoad(v.disk, Complete(v.catalog))
  }

  /** Recipe and prepared object come from one file of one published directory, and the recipe
      has the requested identifier. */
  ghost predicate UsesOneFile(published: seq<Version>, u: Use) {
    && u.recipe.id == u.requested
    && u.version < |published|
    && var disk := published[u.version].disk;
       exists i: nat :: i < |disk.files| && BothFrom(disk, i, u.recipe, u.prepared)
  }

  ghost predicate HoldsSnapshot(published: seq<Version>, i: Inspector) {
    i.Holding? ==>
      && i.version < |published|
      && i.snapshot == published[i.version].catalog
      && IsCatalogOf(i.snapshot, published[i.version].disk)
      && Find(i.snapshot, i.requested) == Found(i.recipe)
  }

  ghost predicate Inv(s: State) {
    && s.published != []
    && (forall k :: 0 <= k < |s.published| ==> LoadedFrom(s.published[k]))
    && (forall t :: t in s.loading ==> LoadedFrom(s.loading[t]))
    && HoldsSnapshot(s.published, s.inspector)
    && (forall k :: 0 <= k < |s.used| ==> UsesOneFile(s.published, s.used[k]))
  }

  lemma DispatchUsesOneFile(s: State)
    requires Inv(s) && s.inspector.Holding?
    ensures var i := s.inspector;
            && FindPrepared(i.snapshot, i.recipe.id).Found?
            && var prepared := FindPrepared(i.snapshot, i.recipe.id).value;
               UsesOneFile(s.published, Use(i.requested, i.version, i.recipe, prepared))
  {
    LookupsAgree(s.inspector.snapshot, s.published[s.inspector.version].disk, s.inspector.requested);
  }

  lemma StepInv(s: State, step: Step)
    requires Inv(s) && Enabled(s, step)
    ensures Inv(Apply(s, step))
  {
    match step
    case InspectBegin(id) => LookupsAgree(s.published[Latest(s)].catalog, s.published[Latest(s)].disk, id);
    case InspectDispatch => DispatchUsesOneFile(s);
    case _ =>
  }

  lemma {:induction false} RunInv(s: State, steps: seq<Step>)
    requires Inv(s) && Runnable(s, steps)
    ensures Inv(Run(s, steps))
    decreases |steps|
  {
    if steps != [] {
      StepInv(s, steps[0]);
      RunInv(Apply(s, steps[0]), steps[1..]);
    }
  }

  ghost predicate Opened(s: State) {
    && |s.published| == 1 && LoadedFrom(s.published[0])
    && s.inspector == Idle && s.loading == map[] && s.used == [] && !s.closed
  }

  /** Reload atomicity: in every interleaving of inspections with any number of reloads, every
      inspection dispatched the requested recipe with the object prepared from the same file. */
  lemma ReloadAtomicity(s: State, steps: seq<Step>, k: nat)
    requires Opened(s) && Runnable(s, steps) && k < |Run(s, steps).used|
    ensures UsesOneFile(Run(s, steps).published, Run(s, steps).used[k])
  {
    RunInv(s, steps);
  }

  /** An inspection begins with the catalog that is current at that moment: it holds the recipe of
      the requested identifier exactly if that catalog has one, and otherwise holds nothing. */
  lemma BeginUsesCurrent(s: State, id: string)
    requires Inv(s) && Enabled(s, InspectBegin(id))
    ensures var current := s.published[|s.published| - 1].catalog;
            var t := Apply(s, InspectBegin(id));
            && t.published == s.published && t.used == s.used
            && (t.inspector.Holding? <==> exists i :: 0 <= i < |current.recipes| && current.recipes[i].id == id)
            && (t.inspector.Holding? ==>
                  && t.inspector.requested == id && t.inspector.snapshot == current
                  && t.inspector.version == |s.published| - 1
                  && t.inspector.recipe in current.recipes && t.inspector.recipe.id == id)
  {
    var v := s.published[Latest(s)];
    LookupsAgree(v.catalog, v.disk, id);
    if i :| 0 <= i < |v.catalog.recipes| && v.catalog.recipes[i].id == id {
      assert id in v.catalog.index;
    }
  }

  /** An inspection that comes to its dispatch always finds its prepared object and uses it once. */
  lemma DispatchSucceeds(s: State)
    requires Inv(s) && Enabled(s, InspectDispatch)
    ensures var t := Apply(s, InspectDispatch);
            && t.inspector == Idle && |t.used| == |s.used| + 1
            && var u := t.used[|s.used|];
               && u.requested == s.inspector.requested
               && u.version == s.inspector.version && u.recipe == s.inspector.recipe
  {
    DispatchUsesOneFile(s);
  }

  /** A reload that loaded the whole directory makes that very catalog the current one. */
  lemma PublishMakesCurrent(s: State, thread: nat)
    requires Enabled(s, ReloadPublish(thread))
    ensures var t := Apply(s, ReloadPublish(thread));
            && |t.published| == |s.published| + 1 && t.published[..|s.published|] == s.published
            && t.published[|s.published|] == s.loading[thread]
            && t.inspector == s.inspector && t.used == s.used
  {
  }

  /** A load that failed changes nothing, and one that succeeded is kept for its publication. */
  lemma ReadKeepsCurrent(s: State, thread: nat, dir: Directory, result: LoadResult)
    requires Enabled(s, ReloadRead(thread, dir, result))
    ensures var t := Apply(s, ReloadRead(thread, dir, result));
            && (result.Failed? ==> t == s)
            && (result.Complete? ==>
                  && thread in t.loading && t.loading[thread].catalog == result.catalog
                  && t == s.(loading := t.loading))
  {
  }

  /** Publishing adds to the history and changes nothing that was published: an inspection under
      way keeps its catalog, and a reload that failed leaves the current one. */
  lemma {:induction false} PublishedStays(s: State, steps: seq<Step>)
    requires Runnable(s, steps)
    ensures s.published <= Run(s, steps).published && s.used <= Run(s, steps).used
    ensures (forall i :: 0 <= i < |steps| ==> !steps[i].ReloadPublish?) ==> Run(s, steps).published == s.published
    decreases |steps|
  {
    if steps != [] {
      PublishedStays(Apply(s, steps[0]), steps[1..]);
    }
  }
}
