/** The exceptions the modelled code raises, one constructor per distinct
    raise site or failing built-in. */
module Errors {

  datatype Error =
    /** `ValueError`: the server jar path is not absolute. */
    | RelativeJarPath
    /** `ValueError`: the server working directory is not absolute. */
    | RelativeWorkPath
    /** `ValueError`: a deferred handler names a server id that was never added. */
    | UnknownServerId(id: string)
    /** `AttributeError`: `stdin` is still `None` because the process was never launched. */
    | NotLaunched
    /** `LookupError`: the ambient current-server variable is unbound. */
    | NoCurrentServer
    /** The launcher could not spawn the process. */
    | LaunchFailed
    /** `IndexError`: the first server id was asked for while no server exists. */
    | NoServers
    /** `ValueError`: `asyncio.wait` was given an empty collection of tasks. */
    | NothingToWait
}
