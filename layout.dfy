/**
 * The folder-layout tables: the base mapping from logical folder key to
 * relative folder, and the per-convention overrides layered over it
 * (`BASE_SUBDIRS`, `get_current_subdirs`), plus the choice of the key a
 * model is filed under (the first half of `get_target_path`).
 */
module Layout {

  type Table = map<string, string>

  /** The key every model falls back to when its own key is missing or unknown. */
  const DefaultKey: string := "diffusion_models"

  /** `BASE_SUBDIRS`. */
  function BaseSubdirs(): Table {
    map[
      "vae" := "vae",
      "diffusion_models" := "diffusion_models",
      "Stable-Diffusion" := "Stable-Diffusion",
      "clip" := "clip",
      "clip_vision" := "clip_vision",
      "yolov8" := "yolov8",
      "style_models" := "style_models",
      "Lora" := "Lora",
      "upscale_models" := "upscale_models",
      "LLM" := "LLM",
      "Joy_caption" := "Joy_caption",
      "clip_vision_google_siglip" := "clip_vision/google--siglip-so400m-patch14-384",
      "LLM_unsloth_llama" := "LLM/unsloth--Meta-Llama-3.1-8B-Instruct",
      "Joy_caption_monster_joy" := "Joy_caption/cgrkzexw-599808",
      "controlnet" := "controlnet"
    ]
  }

  /**
   * The entries the Forge branch assigns on top of the base copy. A map has
   * no order; the six keys the lemmas below look up are listed last.
   */
  function ForgeOverrides(): Table {
    map[
      "Stable-diffusion" := "Stable-diffusion",
      "VAE" := "VAE",
      "Lora" := "Lora",
      "lora" := "Lora",
      "loras" := "Lora",
      "text_encoder" := "text_encoder",
      "t5" := "text_encoder",
      "umt5" := "text_encoder",
      "controlnet" := "ControlNet",
      "ControlNet" := "ControlNet",
      "controlnetpreprocessor" := "ControlNetPreprocessor",
      "ControlNetPreprocessor" := "ControlNetPreprocessor",
      "preprocessor" := "ControlNetPreprocessor",
      "ESRGAN" := "ESRGAN",
      "RealESRGAN" := "ESRGAN",
      "BSRGAN" := "ESRGAN",
      "DAT" := "ESRGAN",
      "SwinIR" := "ESRGAN",
      "ScuNET" := "ESRGAN",
      "upscalers" := "ESRGAN",
      "embeddings" := "embeddings",
      "embedding" := "embeddings",
      "textual_inversion" := "embeddings",
      "diffusers" := "diffusers",
      "diffusion" := "diffusers",
      "Codeformer" := "Codeformer",
      "GFPGAN" := "GFPGAN",
      "BLIP" := "BLIP",
      "deepbooru" := "deepbooru",
      "hypernetworks" := "hypernetworks",
      "LyCORIS" := "LyCORIS",
      "Stable-Diffusion" := "Stable-diffusion",
      "diffusion_models" := "Stable-diffusion",
      "vae" := "VAE",
      "clip" := "text_encoder",
      "clip_vision" := "text_encoder",
      "upscale_models" := "ESRGAN"
    ]
  }

  /** The three layout conventions; the two flags of the source select one of them. */
  datatype Convention = Default | ComfyUI | Forge

  /** The ComfyUI flag is tested first, so it wins when both flags are set. */
  function ConventionOf(isComfyUi: bool, isForge: bool): (c: Convention)
    ensures isComfyUi ==> c == ComfyUI
    ensures c == Forge <==> !isComfyUi && isForge
    ensures c == Default <==> !isComfyUi && !isForge
  {
    if isComfyUi then ComfyUI else if isForge then Forge else Default
  }

  function TableFor(c: Convention): Table {
    match c
    case Default => BaseSubdirs()
    case ComfyUI => BaseSubdirs()["Lora" := "loras"]
    case Forge => BaseSubdirs() + ForgeOverrides()
  }

  /**
   * `get_current_subdirs`: the table for the selected convention. Every
   * table has the default key, so the fallback lookup never misses.
   */
  function CurrentSubdirs(isComfyUi: bool, isForge: bool): (r: Table)
    ensures DefaultKey in r
  {
    TableFor(ConventionOf(isComfyUi, isForge))
  }

  /** With neither flag the table is exactly the base table. */
  lemma NoFlagIsBase()
    ensures CurrentSubdirs(false, false) == BaseSubdirs()
  {
  }

  /**
   * With the ComfyUI flag the table differs from the base table only at
   * "Lora", which becomes "loras"; this holds whatever the Forge flag says.
   */
  lemma ComfyUiChangesOnlyLora(isForge: bool)
    ensures var t := CurrentSubdirs(true, isForge);
      && t.Keys == BaseSubdirs().Keys
      && t["Lora"] == "loras"
      && forall k :: k in BaseSubdirs() && k != "Lora" ==> t[k] == BaseSubdirs()[k]
  {
  }

  /** When both flags are set the Forge flag is ignored. */
  lemma ComfyUiWins(isForge: bool)
    ensures CurrentSubdirs(true, isForge) == CurrentSubdirs(true, false)
  {
  }

  /**
   * With the Forge flag alone every base key is still present; the Forge
   * entries win where both tables have a key and the base entries stay where
   * Forge says nothing.
   */
  lemma ForgeLayersOverBase()
    ensures var t := CurrentSubdirs(false, true);
      && BaseSubdirs().Keys <= t.Keys
      && t.Keys == BaseSubdirs().Keys + ForgeOverrides().Keys
      && (forall k :: k in ForgeOverrides() ==> t[k] == ForgeOverrides()[k])
      && (forall k :: k in BaseSubdirs() && k !in ForgeOverrides() ==> t[k] == BaseSubdirs()[k])
  {
    assert CurrentSubdirs(false, true) == BaseSubdirs() + ForgeOverrides();
  }

  /** A key Forge assigns takes the Forge folder. */
  lemma ForgeEntry(k: string)
    requires k in ForgeOverrides()
    ensures k in CurrentSubdirs(false, true) && CurrentSubdirs(false, true)[k] == ForgeOverrides()[k]
  {
    assert CurrentSubdirs(false, true) == BaseSubdirs() + ForgeOverrides();
  }

  /** Forge files both checkpoint keys under the one "Stable-diffusion" folder. */
  lemma ForgeConsolidatesCheckpoints()
    ensures var t := CurrentSubdirs(false, true);
      t["diffusion_models"] == t["Stable-Diffusion"] == "Stable-diffusion"
  {
    ForgeEntry("diffusion_models");
    ForgeEntry("Stable-Diffusion");
  }

  /** Forge files CLIP and CLIP-vision models under "text_encoder". */
  lemma ForgeConsolidatesTextEncoders()
    ensures var t := CurrentSubdirs(false, true);
      t["clip"] == t["clip_vision"] == "text_encoder"
  {
    ForgeEntry("clip");
    ForgeEntry("clip_vision");
  }

  /** Forge files the default upscalers under "ESRGAN" and the VAEs under "VAE". */
  lemma ForgeRenamesFolders()
    ensures var t := CurrentSubdirs(false, true);
      t["upscale_models"] == "ESRGAN" && t["vae"] == "VAE"
  {
    ForgeEntry("upscale_models");
    ForgeEntry("vae");
  }

  // ---------------------------------------------------------------------------
  // Choice of the folder key

  /** How the key of a model was settled. */
  datatype KeyChoice =
    | Chosen(key: string)     // the key is present in the current table
    | Unknown(key: string)    // a key was given but the table does not have it
    | Missing                 // neither the model nor its sub-category gives a key

  /**
   * `model_info.get("target_dir_key") or sub_category_info.get("target_dir_key")`
   * followed by the membership test; the empty string counts as absent.
   */
  function ChooseKey(modelKey: string, subCategoryKey: string, table: Table): (c: KeyChoice)
    ensures c.Missing? <==> modelKey == "" && subCategoryKey == ""
    ensures c.Chosen? ==> c.key in table
    ensures !c.Missing? ==> c.key == (if modelKey != "" then modelKey else subCategoryKey)
  {
    var key := if modelKey != "" then modelKey else subCategoryKey;
    if key == "" then Missing
    else if key !in table then Unknown(key)
    else Chosen(key)
  }

  /** The relative folder for a choice: the chosen key's folder, else the default key's. */
  function SubdirFor(c: KeyChoice, table: Table): (dir: string)
    requires DefaultKey in table
    requires c.Chosen? ==> c.key in table
    ensures c.Chosen? ==> dir == table[c.key]
    ensures !c.Chosen? ==> dir == table[DefaultKey]
  {
    var key := if c.Chosen? then c.key else DefaultKey;
    if key in table then table[key] else DefaultKey
  }

  /**
   * The folder a model lands in never depends on an invalid key: the model's
   * key wins over its sub-category's, and a missing or unknown key falls back
   * to the default key's folder instead of failing.
   */
  lemma {:induction false} TargetFolderChoice(modelKey: string, subCategoryKey: string, isComfyUi: bool, isForge: bool)
    ensures var t := CurrentSubdirs(isComfyUi, isForge);
      var key := if modelKey != "" then modelKey else subCategoryKey;
      SubdirFor(ChooseKey(modelKey, subCategoryKey, t), t)
        == if key != "" && key in t then t[key] else t[DefaultKey]
  {
  }
}
