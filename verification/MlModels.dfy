// The entities of the model controller (model_controller_base.py).
module MlModels {
  import opened Results

  /** An MlModel proto: model_config (name, version and the rest) and model_data. */
  datatype MlModel = MlModel(name: string, version: string, config: int, data: int)

  datatype ModelState = Loading | Ready | Reloading | Unloading | Failed

  /** ModelAndState; the human-readable message is not modelled. */
  datatype ModelAndState = ModelAndState(state: ModelState, proto: Option<MlModel>)

  /** Every key of the dictionary is the name of the model it holds. */
  predicate KeyedByName(models: map<string, MlModel>) {
    forall n :: n in models ==> models[n].name == n
  }
}
