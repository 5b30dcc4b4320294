/** The `cog` tool of autocog/tools/cog.py. Its `predict` is the same loop
    as that of autocog/cog.py and is modelled once, by `CogCli.Predict`;
    its `write_files` writes the two files it is given. */
module CogTool {
  import CogCli

  /** `write_files(cog_yaml_contents, predict_py_contents)`: `cog.yaml`
      and `predict.py` hold exactly the given text, whatever was there,
      and no other file changes. */
  method WriteFiles(dir: CogCli.Workdir, cogYaml: string, predictPy: string)
    modifies dir
    ensures dir.files == old(dir.files)["cog.yaml" := cogYaml]["predict.py" := predictPy]
    ensures dir.files["cog.yaml"] == cogYaml && dir.files["predict.py"] == predictPy
    ensures forall name :: name in old(dir.files) && name != "cog.yaml" && name != "predict.py" ==>
      name in dir.files && dir.files[name] == old(dir.files)[name]
  {
    dir.files := dir.files["cog.yaml" := cogYaml];
    dir.files := dir.files["predict.py" := predictPy];
  }
}
