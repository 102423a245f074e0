/** Outcomes of the operations of the application object that can throw. */
module Errors {
  datatype Option<T> = None | Some(value: T)

  /** The exceptions the modelled code throws itself or lets through from its collaborators. */
  datatype Error =
    | UnregisteredModule(name: string)    // thrown by getModule and model
    | NoDbConfig                           // thrown by model when no `db` setting exists
    | ModuleFailed(specifier: string)      // resolving, requiring or constructing a module threw
    | LoadFailed(path: string)             // requiring or constructing a model threw

  datatype Result<T> = Success(value: T) | Failure(error: Error)

  /** The message of the two errors the application object constructs itself. */
  function Message(e: Error): string
    requires e.UnregisteredModule? || e.NoDbConfig?
  {
    if e.UnregisteredModule? then "Unregistered module: '" + e.name + "'"
    else "Can not create model without db config"
  }
}
