/**
 * The code the application object calls but does not contain: the module path resolver,
 * `require` with the module classes it loads, the filesystem, `path`, the module classes and the knex factory. Each is an
 * uninterpreted function; the model says only how the application object uses its answers.
 */
module Collaborators {
  import opened Errors
  import opened JsValues
  import opened Modules

  datatype Host = Host(
    // One step of `_initModules` for a specifier: the resolver built on the root resolves it,
    // `require` loads the file and `new moduleF(this)` constructs the module. The resolved path
    // when all three succeed; None when any of them throws.
    loadModule: (string, string) -> Option<string>,
    moduleName: string -> Value,                  // getName() of the module constructed from a resolved path
    isDirectory: string -> bool,                  // fs.lstatSync(path).isDirectory()
    parentDir: string -> string,                  // path.dirname
    join: (string, string) -> string,             // path.join
    modelPath: Module -> string,                  // module.getModelPath()
    publicPath: Module -> string,                 // module.getPublicPath()
    routes: Module -> Value,                      // module.getRoutes()
    // `require(path)` of a model file and `new ModelClass({ knex })` both return without throwing
    canLoadModel: string -> bool,
    connect: Value -> Value)                      // require('knex')(dbConfig)
}
