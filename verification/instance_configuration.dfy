/** Instance-related settings: the instance folder of each experiment, with a
    `"default"` entry as fallback, and the preload and selection flags. */
module InstanceConfiguration {
  import opened Wrappers
  import opened JavaLang

  /** `path` is `None` while `setPath` has never been called (a null map);
      `forSelection` is `None` while it is null. */
  datatype InstanceConfig = InstanceConfig(
    path: Option<map<string, string>>,
    forSelection: Option<string>,
    preliminarPercentage: real,
    preliminarOutputPath: string,
    preload: bool)

  const DEFAULT_KEY: string := "default"

  /** The field initialisers of a freshly constructed configuration. */
  function Default(): InstanceConfig {
    InstanceConfig(None, None, 0.15, "output", true)
  }

  /** `getPath(experimentName)`: the experiment's own folder when it has one,
      otherwise the `"default"` folder, otherwise null; a configuration whose path
      map was never set throws `NullPointerException`. */
  function GetPath(ic: InstanceConfig, experimentName: string): (r: Result<Option<string>, Exception>)
    ensures r.Failure? <==> ic.path.None?
    ensures r.Failure? ==> r.error == NullPointer
    ensures r.Success? && experimentName in ic.path.value ==> r.value == Some(ic.path.value[experimentName])
    ensures r.Success? && experimentName !in ic.path.value && DEFAULT_KEY in ic.path.value
            ==> r.value == Some(ic.path.value[DEFAULT_KEY])
    ensures r.Success? && r.value.None? <==> ic.path.Some? && experimentName !in ic.path.value && DEFAULT_KEY !in ic.path.value
  {
    match ic.path
    case None => Failure(NullPointer)
    case Some(m) =>
      var fallback := if DEFAULT_KEY in m then Some(m[DEFAULT_KEY]) else None;
      Success(if experimentName in m then Some(m[experimentName]) else fallback)
  }

  /** An experiment without a folder of its own reads exactly what the `"default"`
      experiment reads. */
  lemma UnknownExperimentUsesDefault(ic: InstanceConfig, experimentName: string)
    requires ic.path.Some? && experimentName !in ic.path.value
    ensures GetPath(ic, experimentName) == GetPath(ic, DEFAULT_KEY)
  {
  }

  /** `setPath` then `getPath` reads from the map just set, whatever was there before. */
  lemma SetPathThenGet(ic: InstanceConfig, paths: map<string, string>, experimentName: string, folder: string)
    requires experimentName in paths && paths[experimentName] == folder
    ensures GetPath(ic.(path := Some(paths)), experimentName) == Success(Some(folder))
  {
  }

  /** A fresh configuration preloads instances, writes preliminary output to
      `"output"`, and has no path map and no selection yet. */
  lemma DefaultValues()
    ensures Default().preload && Default().preliminarOutputPath == "output"
    ensures Default().forSelection.None? && GetPath(Default(), DEFAULT_KEY) == Failure(NullPointer)
  {
  }

  /** `setPreload`/`isPreload` and `setForSelection`/`getForSelection` round-trip,
      and neither setter changes what `getPath` answers. */
  lemma SettersRoundTrip(ic: InstanceConfig, preload: bool, selection: string, experimentName: string)
    ensures ic.(preload := preload).preload == preload
    ensures ic.(forSelection := Some(selection)).forSelection == Some(selection)
    ensures GetPath(ic.(preload := preload), experimentName) == GetPath(ic, experimentName)
    ensures GetPath(ic.(forSelection := Some(selection)), experimentName) == GetPath(ic, experimentName)
  {
  }
}
