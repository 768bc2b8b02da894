/** A registry that gives every key a mutex of its own; `next` is the number of the next mutex to be made. */
module Registries {
  ghost predicate OneMutexPerKey<K(!new)>(registry: map<K, nat>, next: nat) {
    && (forall k :: k in registry ==> registry[k] < next)
    && (forall j, k :: j in registry && k in registry && j != k ==> registry[j] != registry[k])
  }

  /** Every registered mutex stays registered for its key. */
  ghost predicate Extends<K(!new)>(later: map<K, nat>, earlier: map<K, nat>) {
    forall k :: k in earlier ==> k in later && later[k] == earlier[k]
  }
}
