// The user's options that the models depend on.
module Options {
  // Whether redundant mutants are dropped.
  datatype MutantSetPolicy = Default | Full
}
