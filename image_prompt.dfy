/**
 * The pure string logic of `generate_image_for_page` (blogclip_app.py:246-296):
 * the style suffix chosen for an image style, the full prompt sent to the
 * image service, the 500-character retry prompt, and the decision of what
 * the function returns given the service's replies.  The service itself is
 * not modelled: each of its replies is a parameter.
 */
module ImagePrompt {
  import opened Wrappers
  import opened Text

  /** The style used when none is named, and the fallback for unknown ones (line 261). */
  const DefaultStyle: string := "실사 스타일"

  // Lines 253-257: the suffix appended to the prompt for each image style.
  /** 실사 스타일 (photorealistic) */
  const PhotoSuffix: string := " Create a hyper-realistic photograph with extreme detail. Use professional photography techniques with natural lighting, perfect focus, and authentic textures. The image should look indistinguishable from a high-end camera photo with 8K resolution. Include subtle details like skin pores, fabric texture, or surface reflections where appropriate. Use photorealistic color grading with naturalistic environment."
  /** 동화책 스타일 (storybook) */
  const StorybookSuffix: string := " in a soft, illustrated storybook style, warm and cozy colors."
  /** 수채화 스타일 (watercolour) */
  const WatercolorSuffix: string := " as a delicate watercolor painting with soft colors and gentle brushstrokes."
  /** 3D 렌더링 (3D rendering) */
  const RenderSuffix: string := " as a colorful 3D rendered scene with soft lighting and gentle shadows."
  /** 일러스트레이션 (illustration) */
  const IllustrationSuffix: string := " as a clean, modern illustration with vibrant colors and simple shapes."

  /** Lines 252-258: the style table. */
  const StyleSuffixes: map<string, string> := map[
    "실사 스타일" := PhotoSuffix,
    "동화책 스타일" := StorybookSuffix,
    "수채화 스타일" := WatercolorSuffix,
    "3D 렌더링" := RenderSuffix,
    "일러스트레이션" := IllustrationSuffix
  ]

  /** The longest prompt the retry sends (line 285). */
  const RetryLimit: nat := 500

  /** What the function reports when the page has no image prompt (line 249). */
  const MissingPromptText: string := "프롬프트 생성 실패"

  /** Line 261: `style_prompts.get(image_style, style_prompts["실사 스타일"])`. */
  function StyleSuffix(style: string): (r: string)
    ensures style in StyleSuffixes ==> r == StyleSuffixes[style]
    ensures style !in StyleSuffixes ==> r == StyleSuffixes[DefaultStyle]
  {
    if style in StyleSuffixes then StyleSuffixes[style] else StyleSuffixes[DefaultStyle]
  }

  /** Line 269: the request is the page's prompt followed by the style suffix. */
  function FullPrompt(prompt: string, style: string): (r: string)
    ensures |r| == |prompt| + |StyleSuffix(style)|
    ensures StartsWith(r, prompt)
    ensures r[|prompt|..] == StyleSuffix(style)
  {
    prompt + StyleSuffix(style)
  }

  /** For a fixed style, the page's prompt can be read back from the request. */
  lemma FullPromptInjective(p: string, q: string, style: string)
    requires FullPrompt(p, style) == FullPrompt(q, style)
    ensures p == q
  {
  }

  /** Line 285: `prompt_text[:500]`. */
  function RetryPrompt(prompt: string): (r: string)
    ensures |r| <= RetryLimit
    ensures StartsWith(prompt, r)
    ensures |prompt| <= RetryLimit <==> r == prompt
    ensures |prompt| >= RetryLimit ==> |r| == RetryLimit
  {
    if |prompt| <= RetryLimit then prompt else prompt[..RetryLimit]
  }

  /** ASCII lower-casing, the part of `str.lower()` the error test depends on. */
  function LowerChar(c: char): (r: char)
    ensures 'A' <= c <= 'Z' ==> r as int == c as int + 32
    ensures !('A' <= c <= 'Z') ==> r == c
  {
    if 'A' <= c <= 'Z' then (c as int + 32) as char else c
  }

  function Lower(s: string): (r: string)
    ensures |r| == |s|
    ensures forall i :: 0 <= i < |s| ==> r[i] == LowerChar(s[i])
  {
    seq(|s|, i requires 0 <= i < |s| => LowerChar(s[i]))
  }

  /** Lines 281-284: the failure is taken to be about the prompt's length. */
  predicate IsLengthError(message: string) {
    Contains(Lower(message), "maximum context length") || Contains(Lower(message), "too long")
  }

  /** One reply of the image service: an image URL, or an exception's message. */
  datatype Reply = Generated(url: string) | Failed(message: string)

  /** The dictionary `generate_image_for_page` returns. */
  datatype ImageResult = ImageResult(prompt: string, url: Option<string>)

  /** Lines 246-296.  `imagePrompt` is the page's `image_prompt` entry
      (`None` when the page or the entry is missing); `first` is the reply
      to the first request and `retry` the reply to the shortened one,
      consulted only when the first fails with a length error. */
  function GenerateImage(imagePrompt: Option<string>, first: Reply, retry: Reply): (r: ImageResult)
    ensures imagePrompt.None? || imagePrompt == Some("") ==> r == ImageResult(MissingPromptText, None)
    ensures imagePrompt.Some? && imagePrompt.value != "" ==>
      match first
      case Generated(url) => r == ImageResult(imagePrompt.value, Some(url))
      case Failed(message) =>
        if IsLengthError(message) && retry.Generated? then
          r == ImageResult(RetryPrompt(imagePrompt.value), Some(retry.url))
        else
          r == ImageResult(imagePrompt.value, None)
  {
    if imagePrompt.None? || imagePrompt.value == "" then ImageResult(MissingPromptText, None)
    else
      var prompt := imagePrompt.value;
      match first
      case Generated(url) => ImageResult(prompt, Some(url))
      case Failed(message) =>
        if IsLengthError(message) then
          match retry
          case Generated(url) => ImageResult(RetryPrompt(prompt), Some(url))
          case Failed(_) => ImageResult(prompt, None)
        else ImageResult(prompt, None)
  }

  /** The requests sent to the image service, in order (lines 269-275 and
      286-290): the full prompt, and the shortened one after a length error. */
  function RequestsSent(imagePrompt: Option<string>, style: string, first: Reply): (r: seq<string>)
    ensures imagePrompt.None? || imagePrompt == Some("") ==> r == []
    ensures imagePrompt.Some? && imagePrompt.value != "" ==>
              1 <= |r| <= 2 && r[0] == FullPrompt(imagePrompt.value, style)
              && (|r| == 2 <==> first.Failed? && IsLengthError(first.message))
              && (|r| == 2 ==> r[1] == FullPrompt(RetryPrompt(imagePrompt.value), style))
  {
    if imagePrompt.None? || imagePrompt.value == "" then []
    else
      var prompt := imagePrompt.value;
      if first.Failed? && IsLengthError(first.message) then
        [FullPrompt(prompt, style), FullPrompt(RetryPrompt(prompt), style)]
      else [FullPrompt(prompt, style)]
  }

  /** Whatever the service replies, the reported prompt is the page's own
      prompt or its first 500 characters, and a URL is reported only when
      the request for that prompt succeeded. */
  lemma ReportedPromptIsPrefix(imagePrompt: string, style: string, first: Reply, retry: Reply)
    requires imagePrompt != ""
    ensures var r := GenerateImage(Some(imagePrompt), first, retry);
            StartsWith(imagePrompt, r.prompt)
            && (r.url.Some? ==>
                  var sent := RequestsSent(Some(imagePrompt), style, first);
                  FullPrompt(r.prompt, style) == sent[|sent| - 1])
            && (r.prompt != imagePrompt ==> |r.prompt| == RetryLimit && r.url.Some?)
  {
  }
}
