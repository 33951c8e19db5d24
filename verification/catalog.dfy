/** The fixed catalog of native entry points, grouped by facade.

    Two lists exist per facade: the names `Load` asks every library for, in
    the order it asks, and the public `methods` array each facade advertises.
    They agree for every facade except Dynamic. */
module Catalog {

  datatype Facade = Async | Core | Dynamic | Meta | Serialize | Static | Wasm

  /** The facades in the order `Load` visits them for each library. */
  const FacadeOrder: seq<Facade> := [Async, Core, Dynamic, Meta, Serialize, Static, Wasm]

  const AllFacades: set<Facade> := {Async, Core, Dynamic, Meta, Serialize, Static, Wasm}

  /** The names `Load` resolves for facade `f`, in the order of its calls. */
  function LoadedNames(f: Facade): seq<string>
  {
    match f
    case Async => [
      "ecsact_async_execute_action",
      "ecsact_async_execute_action_at",
      "ecsact_async_flush_events",
      "ecsact_async_connect",
      "ecsact_async_disconnect"]
    case Core => [
      "ecsact_create_registry",
      "ecsact_destroy_registry",
      "ecsact_clear_registry",
      "ecsact_create_entity",
      "ecsact_ensure_entity",
      "ecsact_entity_exists",
      "ecsact_destroy_entity",
      "ecsact_count_entities",
      "ecsact_get_entities",
      "ecsact_add_component",
      "ecsact_has_component",
      "ecsact_get_component",
      "ecsact_each_component",
      "ecsact_count_components",
      "ecsact_get_components",
      "ecsact_update_component",
      "ecsact_remove_component",
      "ecsact_execute_systems"]
    case Dynamic => [
      "ecsact_system_execution_context_action",
      "ecsact_system_execution_context_add",
      "ecsact_system_execution_context_remove",
      "ecsact_system_execution_context_update",
      "ecsact_system_execution_context_get",
      "ecsact_system_execution_context_has",
      "ecsact_system_execution_context_generate",
      "ecsact_system_execution_context_parent",
      "ecsact_system_execution_context_same",
      "ecsact_create_system",
      "ecsact_set_system_execution_impl",
      "ecsact_create_action",
      "ecsact_resize_action",
      "ecsact_create_component",
      "ecsact_resize_component",
      "ecsact_destroy_component",
      "ecsact_add_system_capability",
      "ecsact_update_system_capability",
      "ecsact_remove_system_capability",
      "ecsact_add_system_generate_component_set",
      "ecsact_register_component",
      "ecsact_register_system",
      "ecsact_register_action",
      "ecsact_system_execution_context_id"]
    case Meta => [
      "ecsact_meta_registry_name",
      "ecsact_meta_component_size",
      "ecsact_meta_component_name",
      "ecsact_meta_action_size",
      "ecsact_meta_action_name",
      "ecsact_meta_system_name",
      "ecsact_meta_system_capabilities_count",
      "ecsact_meta_system_capabilities"]
    case Serialize => [
      "ecsact_serialize_action_size",
      "ecsact_serialize_component_size",
      "ecsact_serialize_action",
      "ecsact_serialize_component",
      "ecsact_deserialize_action",
      "ecsact_deserialize_component"]
    case Static => [
      "ecsact_static_components",
      "ecsact_static_systems",
      "ecsact_static_actions",
      "ecsact_static_on_reload",
      "ecsact_static_off_reload"]
    case Wasm => [
      "ecsactsi_wasm_load",
      "ecsactsi_wasm_load_file",
      "ecsactsi_wasm_set_trap_handler"]
  }

  /** The public `methods` array of facade `f`, exactly as the source lists it. */
  function Methods(f: Facade): seq<string>
  {
    match f
    case Async => [
      "ecsact_async_connect",
      "ecsact_async_disconnect",
      "ecsact_async_execute_action_at",
      "ecsact_async_execute_action",
      "ecsact_async_flush_events"]
    case Core => [
      "ecsact_add_component",
      "ecsact_clear_registry",
      "ecsact_count_components",
      "ecsact_count_entities",
      "ecsact_create_entity",
      "ecsact_create_registry",
      "ecsact_destroy_entity",
      "ecsact_destroy_registry",
      "ecsact_each_component",
      "ecsact_ensure_entity",
      "ecsact_entity_exists",
      "ecsact_execute_systems",
      "ecsact_get_component",
      "ecsact_get_components",
      "ecsact_get_entities",
      "ecsact_has_component",
      "ecsact_remove_component",
      "ecsact_update_component"]
    case Dynamic => [
      "ecsact_add_system_capability",
      "ecsact_add_system_generate_component_set",
      "ecsact_create_action",
      "ecsact_create_component",
      "ecsact_create_system",
      "ecsact_create_variant",
      "ecsact_destroy_component",
      "ecsact_destroy_variant",
      "ecsact_register_action",
      "ecsact_register_component",
      "ecsact_register_system",
      "ecsact_remove_system_capability",
      "ecsact_resize_action",
      "ecsact_resize_component",
      "ecsact_set_system_execution_impl",
      "ecsact_system_execution_context_action",
      "ecsact_system_execution_context_add",
      "ecsact_system_execution_context_generate",
      "ecsact_system_execution_context_get",
      "ecsact_system_execution_context_has",
      "ecsact_system_execution_context_id",
      "ecsact_system_execution_context_parent",
      "ecsact_system_execution_context_remove",
      "ecsact_system_execution_context_same",
      "ecsact_update_system_capability"]
    case Meta => [
      "ecsact_meta_action_name",
      "ecsact_meta_action_size",
      "ecsact_meta_component_name",
      "ecsact_meta_component_size",
      "ecsact_meta_registry_name",
      "ecsact_meta_system_capabilities_count",
      "ecsact_meta_system_capabilities",
      "ecsact_meta_system_name"]
    case Serialize => [
      "ecsact_deserialize_action",
      "ecsact_deserialize_component",
      "ecsact_serialize_action_size",
      "ecsact_serialize_action",
      "ecsact_serialize_component_size",
      "ecsact_serialize_component"]
    case Static => [
      "ecsact_static_actions",
      "ecsact_static_components",
      "ecsact_static_off_reload",
      "ecsact_static_on_reload",
      "ecsact_static_systems"]
    case Wasm => [
      "ecsactsi_wasm_load",
      "ecsactsi_wasm_load_file",
      "ecsactsi_wasm_set_trap_handler"]
  }

  /** The catalog as it evidently should read: the names `Load` resolves,
      in the alphabetical order the arrays use. Only Dynamic differs from
      `Methods`. */
  function AdvertisedMethods(f: Facade): seq<string>
  {
    match f
    case Dynamic => [
      "ecsact_add_system_capability",
      "ecsact_add_system_generate_component_set",
      "ecsact_create_action",
      "ecsact_create_component",
      "ecsact_create_system",
      "ecsact_destroy_component",
      "ecsact_register_action",
      "ecsact_register_component",
      "ecsact_register_system",
      "ecsact_remove_system_capability",
      "ecsact_resize_action",
      "ecsact_resize_component",
      "ecsact_set_system_execution_impl",
      "ecsact_system_execution_context_action",
      "ecsact_system_execution_context_add",
      "ecsact_system_execution_context_generate",
      "ecsact_system_execution_context_get",
      "ecsact_system_execution_context_has",
      "ecsact_system_execution_context_id",
      "ecsact_system_execution_context_parent",
      "ecsact_system_execution_context_remove",
      "ecsact_system_execution_context_same",
      "ecsact_system_execution_context_update",
      "ecsact_update_system_capability"]
    case _ => Methods(f)
  }

  /** Every facade except Dynamic advertises exactly the names it loads. */
  lemma CatalogMatchesLoadsExceptDynamic(f: Facade)
    requires f != Dynamic
    ensures forall n :: n in Methods(f) <==> n in LoadedNames(f)
  {
  }

  /** As written, Dynamic's catalog names two entry points `Load` never
      resolves and leaves out one it does resolve. */
  lemma DynamicCatalogMismatch()
    ensures "ecsact_create_variant" in Methods(Dynamic)
    ensures "ecsact_create_variant" !in LoadedNames(Dynamic)
    ensures "ecsact_destroy_variant" in Methods(Dynamic)
    ensures "ecsact_destroy_variant" !in LoadedNames(Dynamic)
    ensures "ecsact_system_execution_context_update" in LoadedNames(Dynamic)
    ensures "ecsact_system_execution_context_update" !in Methods(Dynamic)
  {
    NotLoaded("ecsact_create_variant");
    NotLoaded("ecsact_destroy_variant");
    NotAdvertised("ecsact_system_execution_context_update");
  }

  lemma NotLoaded(n: string)
    requires n == "ecsact_create_variant" || n == "ecsact_destroy_variant"
    ensures n in Methods(Dynamic) && n !in LoadedNames(Dynamic)
  {
  }

  lemma NotAdvertised(n: string)
    requires n == "ecsact_system_execution_context_update"
    ensures n in LoadedNames(Dynamic) && n !in Methods(Dynamic)
  {
  }

  /** The corrected catalog advertises exactly the loaded names, for every facade. */
  lemma AdvertisedMatchesLoaded(f: Facade)
    ensures forall n :: n in AdvertisedMethods(f) <==> n in LoadedNames(f)
  {
  }
}
