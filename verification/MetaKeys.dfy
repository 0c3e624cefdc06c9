/** Metadata keys as the storage backends see them: a namespace and a name, joined by a slash. */
module MetaKeys {

  datatype Namespace = Manifests | Tags | Layers | Builds | Index

  function Prefix(ns: Namespace): string {
    match ns
    case Manifests => "manifests/"
    case Tags => "tags/"
    case Layers => "layers/"
    case Builds => "builds/"
    case Index => "index/"
  }

  datatype MetaKey = MetaKey(ns: Namespace, name: string)

  function Render(key: MetaKey): string {
    Prefix(key.ns) + key.name
  }
}
