/** The command line `BuildTzdata` gives the zone compiler, zic(8):
    `zic -d <outdir>` followed by every region file of the extracted
    tarball. */
module Zic {
  import opened Tzdata

  /** `'%s/%%s' % extracted_iana_dir` with a region name substituted. */
  function RegionPath(dir: string, region: string): string {
    dir + "/" + region
  }

  /** `zic_cmd` after `extend(zic_inputs)`: the options, then one path per
      region, in the order of `Regions`. */
  function ZicCommand(outDir: string, extractedDir: string): (cmd: seq<string>)
    ensures |cmd| == 3 + |Regions| == 13
    ensures cmd[..3] == ["zic", "-d", outDir]
    ensures forall k :: 0 <= k < |Regions| ==> cmd[3 + k] == RegionPath(extractedDir, Regions[k])
  {
    var inputs := seq(|Regions|, k requires 0 <= k < |Regions| => RegionPath(extractedDir, Regions[k]));
    ["zic", "-d", outDir] + inputs
  }

  /** No region file is named twice. */
  lemma RegionsDistinct()
    ensures forall i, j :: 0 <= i < j < |Regions| ==> Regions[i] != Regions[j]
  {
    forall i, j | 0 <= i < j < |Regions| ensures Regions[i] != Regions[j] {
      assert |Regions[i]| != |Regions[j]| || Regions[i][0] != Regions[j][0] || Regions[i][4] != Regions[j][4];
    }
  }

  /** Each input argument names one region file inside the extracted
      directory, and the region can be read back from it. */
  lemma ZicInputsNameRegions(outDir: string, extractedDir: string)
    ensures var cmd := ZicCommand(outDir, extractedDir);
      forall k :: 0 <= k < |Regions| ==>
        && cmd[3 + k][..|extractedDir| + 1] == extractedDir + "/"
        && cmd[3 + k][|extractedDir| + 1..] == Regions[k]
  {
  }

  /** The compiler is given every region file exactly once, and `backward`
      and `backzone`, which override what comes before them, last. */
  lemma ZicInputsOnceEachOverridesLast(outDir: string, extractedDir: string)
    ensures var cmd := ZicCommand(outDir, extractedDir);
      && (forall i, j :: 3 <= i < j < |cmd| ==> cmd[i] != cmd[j])
      && cmd[|cmd| - 2..] == [RegionPath(extractedDir, "backward"), RegionPath(extractedDir, "backzone")]
  {
    var cmd := ZicCommand(outDir, extractedDir);
    RegionsDistinct();
    ZicInputsNameRegions(outDir, extractedDir);
    forall i, j | 3 <= i < j < |cmd| ensures cmd[i] != cmd[j] {
      assert Regions[i - 3] != Regions[j - 3];
      assert cmd[i][|extractedDir| + 1..] != cmd[j][|extractedDir| + 1..];
    }
  }
}
