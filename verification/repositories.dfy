/** Storage repositories: the derived used space and the figures of the
    repository report, guarded against a zero or absent capacity. Sizes
    are exact reals, so no floating-point rounding is claimed. */
module Repositories {
  import opened Wrappers

  /** Gigabytes per terabyte, as the report converts them. */
  const GBPerTB: real := 1024.0

  /** A repository as returned by the repository-states endpoint; each
      numeric field is `None` when absent. */
  datatype Repo = Repo(
    name: string,
    path: string,
    capacityGB: Option<real>,
    freeGB: Option<real>,
    usedSpaceGB: Option<real>)

  /** A numeric field, read as 0 when absent. */
  function Field(x: Option<real>): real {
    x.GetOr(0.0)
  }

  /** Sets `usedSpaceGB` to capacity minus free space, as done once per run
      right after the repositories are fetched. */
  function DeriveUsedSpace(r: Repo): (d: Repo)
    ensures d.usedSpaceGB.Some?
    ensures d.usedSpaceGB.value + Field(r.freeGB) == Field(r.capacityGB)
    ensures d.name == r.name && d.path == r.path
    ensures d.capacityGB == r.capacityGB && d.freeGB == r.freeGB
  {
    r.(usedSpaceGB := Some(Field(r.capacityGB) - Field(r.freeGB)))
  }

  /** The derivation applied to every repository of the response. */
  function DeriveAll(repos: seq<Repo>): (ds: seq<Repo>)
    ensures |ds| == |repos|
    ensures forall i :: 0 <= i < |repos| ==>
      && ds[i].usedSpaceGB.Some?
      && ds[i].usedSpaceGB.value + Field(repos[i].freeGB) == Field(repos[i].capacityGB)
      && ds[i] == repos[i].(usedSpaceGB := ds[i].usedSpaceGB)
  {
    seq(|repos|, i requires 0 <= i < |repos| => DeriveUsedSpace(repos[i]))
  }

  /** Capacity 1024 GB with 512 GB free gives 512 GB used. */
  lemma DeriveExample(name: string, path: string, used: Option<real>)
    ensures DeriveUsedSpace(Repo(name, path, Some(1024.0), Some(512.0), used)).usedSpaceGB == Some(512.0)
  {
  }

  /** The figures printed for one repository. */
  datatype Figures = Figures(totalTB: real, usedTB: real, utilisation: real)

  /** Total and used space in terabytes and the utilisation percentage;
      all three are 0 when the capacity is 0 or absent, so nothing is
      divided by zero. */
  function RepoFigures(r: Repo): (f: Figures)
    ensures Field(r.capacityGB) == 0.0 ==> f == Figures(0.0, 0.0, 0.0)
    ensures Field(r.capacityGB) != 0.0 ==>
      && f.totalTB * GBPerTB == Field(r.capacityGB)
      && f.usedTB * GBPerTB == Field(r.usedSpaceGB)
      && f.utilisation * Field(r.capacityGB) == Field(r.usedSpaceGB) * 100.0
  {
    var cap := Field(r.capacityGB);
    var used := Field(r.usedSpaceGB);
    if cap != 0.0 then Figures(cap / GBPerTB, used / GBPerTB, used / cap * 100.0)
    else Figures(0.0, 0.0, 0.0)
  }

  /** The figures of every repository, in response order. */
  function RepoReport(repos: seq<Repo>): (fs: seq<Figures>)
    ensures |fs| == |repos|
    ensures forall i :: 0 <= i < |repos| && Field(repos[i].capacityGB) == 0.0 ==>
      fs[i] == Figures(0.0, 0.0, 0.0)
    ensures forall i :: 0 <= i < |repos| && Field(repos[i].capacityGB) != 0.0 ==>
      && fs[i].totalTB * GBPerTB == Field(repos[i].capacityGB)
      && fs[i].usedTB * GBPerTB == Field(repos[i].usedSpaceGB)
      && fs[i].utilisation * Field(repos[i].capacityGB) == Field(repos[i].usedSpaceGB) * 100.0
  {
    seq(|repos|, i requires 0 <= i < |repos| => RepoFigures(repos[i]))
  }

  /** For a repository whose used space was derived and whose free space
      lies between 0 and a positive capacity, utilisation is a percentage
      and utilisation plus the free share make 100. */
  lemma DerivedUtilisationIsPercentage(r: Repo)
    requires 0.0 <= Field(r.freeGB) <= Field(r.capacityGB)
    requires Field(r.capacityGB) > 0.0
    ensures var f := RepoFigures(DeriveUsedSpace(r));
      && 0.0 <= f.utilisation <= 100.0
      && f.utilisation + Field(r.freeGB) / Field(r.capacityGB) * 100.0 == 100.0
  {
  }
}
