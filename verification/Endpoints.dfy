module Endpoints {
  /** An Iroh `EndpointId`. */
  type EndpointId = nat
}
