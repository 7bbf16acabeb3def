/** How a deployed agent is addressed (crates/baml-rt-core/src/agent_routing/keys.rs:109-112). */
module Routes {
  datatype RouteKey = RouteKey(package: string, instance: string)
}
